/** Finished Earley sets as values, and what makes them right. */
module EarleySets {
  import opened Grammars
  import opened Derivations

  datatype Option<T> = None | Some(value: T)

  /** A Leo item: the unique item `base` waiting for a symbol, and the end of the chain of completions
      that item would start. `origin` is None until the Leo item is populated. */
  datatype Lim = Lim(base: Item, topIrl: nat, origin: Option<nat>)

  /** An entry of a postdot list: an Earley item or, ahead of it, a Leo item. */
  datatype Pim = YimPim(item: Item) | LimPim(lim: Lim)

  type Postdots = map<nat, seq<Pim>>

  datatype EarleySet = EarleySet(items: seq<Item>, postdot: Postdots)

  /** Earley sets by earleme; an earleme at which no token ends has none. */
  type Sets = map<nat, EarleySet>

  ghost predicate PostdotIs(g: Grammar, x: Item, a: nat) {
    InRange(g, x) && !IsComplete(g, x) && Postdot(g, x) == a
  }

  ghost predicate Completes(g: Grammar, x: Item, a: nat) {
    InRange(g, x) && IsComplete(g, x) && Lhs(g, x) == a
  }

  predicate HasLim(postdot: Postdots, a: nat) {
    a in postdot && postdot[a] != [] && postdot[a][0].LimPim?
  }

  function LimAt(postdot: Postdots, a: nat): Lim
    requires HasLim(postdot, a)
  {
    postdot[a][0].lim
  }

  ghost predicate Populated(g: Grammar, l: Lim) {
    l.origin.Some? && IsRule(g, l.topIrl)
  }

  /** The completed item that stands for the whole chain. */
  ghost function TopItem(g: Grammar, l: Lim): Item
    requires Populated(g, l)
  {
    Item(l.topIrl, |g.irls[l.topIrl].rhs|, l.origin.value)
  }

  ghost predicate Distinct(items: seq<Item>) {
    forall p, q | 0 <= p < q < |items| :: items[p] != items[q]
  }

  // ---------------------------------------------------------------- the postdot index

  ghost predicate PimsOk(g: Grammar, items: seq<Item>, a: nat, pims: seq<Pim>) {
    && pims != []
    && (forall k | 0 <= k < |pims| && pims[k].YimPim? :: pims[k].item in items && PostdotIs(g, pims[k].item, a))
    && (forall k | 0 < k < |pims| :: pims[k].YimPim?)
    && (forall k, m | 0 <= k < m < |pims| :: pims[k] != pims[m])
    && (pims[0].LimPim? ==>
          && |pims| == 2 && pims[1] == YimPim(pims[0].lim.base)
          && InRange(g, Next(pims[0].lim.base)) && IsComplete(g, Next(pims[0].lim.base)))
  }

  ghost predicate IndexOk(g: Grammar, items: seq<Item>, postdot: Postdots) {
    && (forall y, a: nat | y in items && PostdotIs(g, y, a) :: a in postdot && YimPim(y) in postdot[a])
    && (forall a | a in postdot :: PimsOk(g, items, a, postdot[a]))
  }

  // ---------------------------------------------------------------- Leo items

  /** The memo equals the walk it replaces, one step at a time: the top of a Leo item is the top of
      the Leo item its base's own completion would trigger, or that completion if there is none. */
  ghost predicate LimOk(g: Grammar, sets: Sets, l: Lim) {
    && Populated(g, l)
    && InRange(g, l.base)
    && l.base.origin in sets
    && (if HasLim(sets[l.base.origin].postdot, Lhs(g, l.base))
        then var up := LimAt(sets[l.base.origin].postdot, Lhs(g, l.base));
             Populated(g, up) && TopItem(g, l) == TopItem(g, up)
        else TopItem(g, l) == Next(l.base))
  }

  /** Whenever symbol `a` is recognized from `i` to `e`, the top item is a right item at `e`. */
  ghost predicate LimSound(g: Grammar, ts: set<Token>, a: nat, i: nat, l: Lim) {
    && Populated(g, l)
    && Predicted(g, ts, l.topIrl, l.origin.value)
    && l.origin.value <= i
    && (forall us: set<Token>, e: nat, c | ts <= us && Causes(g, us, a, i, e, c) :: Spanned(g, us, TopItem(g, l), e))
  }

  // ---------------------------------------------------------------- right sets

  ghost predicate SetSound(g: Grammar, ts: set<Token>, j: nat, items: seq<Item>) {
    forall x | x in items :: Valid(g, ts, x, j)
  }

  /** The item is there, or it is a completion that a Leo item stands in for. */
  ghost predicate Covered(g: Grammar, sets: Sets, items: seq<Item>, x: Item) {
    || x in items
    || LeoCovered(g, sets, items, x)
  }

  ghost predicate LeoCovered(g: Grammar, sets: Sets, items: seq<Item>, x: Item) {
    && InRange(g, x) && IsComplete(g, x)
    && x.origin in sets
    && HasLim(sets[x.origin].postdot, Lhs(g, x))
    && Populated(g, LimAt(sets[x.origin].postdot, Lhs(g, x)))
    && TopItem(g, LimAt(sets[x.origin].postdot, Lhs(g, x))) in items
  }

  ghost predicate SetComplete(g: Grammar, ts: set<Token>, sets: Sets, j: nat, items: seq<Item>) {
    forall x | Valid(g, ts, x, j) :: Covered(g, sets, items, x)
  }

  ghost predicate LimsOk(g: Grammar, ts: set<Token>, sets: Sets, j: nat)
    requires j in sets
  {
    forall a: nat | HasLim(sets[j].postdot, a) ::
      LimOk(g, sets, LimAt(sets[j].postdot, a)) && LimSound(g, ts, a, j, LimAt(sets[j].postdot, a))
  }

  ghost predicate SetOk(g: Grammar, ts: set<Token>, sets: Sets, j: nat) {
    && j in sets
    && SetSound(g, ts, j, sets[j].items)
    && SetComplete(g, ts, sets, j, sets[j].items)
    && IndexOk(g, sets[j].items, sets[j].postdot)
    && LimsOk(g, ts, sets, j)
  }

  ghost predicate NoItems(g: Grammar, ts: set<Token>, j: nat) {
    forall x :: !Valid(g, ts, x, j)
  }

  ghost predicate SetsOk(g: Grammar, ts: set<Token>, sets: Sets, n: nat) {
    && (forall j | j in sets :: j < n && SetOk(g, ts, sets, j))
    && (forall j: nat | j < n && j !in sets :: NoItems(g, ts, j))
  }

  // ---------------------------------------------------------------- closure of a set under construction

  ghost predicate ScanClosed(g: Grammar, ts: set<Token>, sets: Sets, j: nat, items: seq<Item>) {
    forall t, y | t in ts && t.end == j && t.start in sets && y in sets[t.start].items && PostdotIs(g, y, t.symbol) ::
      Next(y) in items
  }

  /** The work one completed item calls for has been done. */
  ghost predicate CompletionDone(g: Grammar, sets: Sets, items: seq<Item>, x: Item, a: nat) {
    && x.origin in sets
    && if HasLim(sets[x.origin].postdot, a)
       then Populated(g, LimAt(sets[x.origin].postdot, a)) && TopItem(g, LimAt(sets[x.origin].postdot, a)) in items
       else forall y | y in sets[x.origin].items && PostdotIs(g, y, a) :: Next(y) in items
  }

  ghost predicate CompletionClosed(g: Grammar, sets: Sets, items: seq<Item>) {
    forall x, a: nat | x in items && Completes(g, x, a) :: CompletionDone(g, sets, items, x, a)
  }

  ghost predicate PredictionClosed(g: Grammar, j: nat, items: seq<Item>) {
    forall y, r: nat | y in items && IsRule(g, r) && PostdotIs(g, y, g.irls[r].lhs) :: Item(r, 0, j) in items
  }

  ghost predicate Closed(g: Grammar, ts: set<Token>, sets: Sets, j: nat, items: seq<Item>) {
    && (j == 0 ==> Item(g.start, 0, 0) in items)
    && ScanClosed(g, ts, sets, j, items)
    && CompletionClosed(g, sets, items)
    && PredictionClosed(g, j, items)
  }

  // ---------------------------------------------------------------- completeness

  lemma {:induction false} SpanEndsInToken(g: Grammar, ts: set<Token>, r: nat, d: nat, i: nat, j: nat, p: Path)
    requires RulesOk(g) && Spans(g, ts, r, d, i, j, p) && p.Snoc?
    ensures exists t :: t in ts && t.end == j
    decreases p
  {
    match p.cause {
      case Scan => assert Token(g.irls[r].rhs[d - 1], p.mid, j) in ts;
      case Complete(q, cp) => SpanEndsInToken(g, ts, q, |g.irls[q].rhs|, p.mid, j, cp);
    }
  }

  lemma {:induction false} NothingPredicted(g: Grammar, ts: set<Token>, j: nat, r: nat, s: Spine)
    requires RulesOk(g) && j > 0 && (forall t | t in ts :: t.end != j)
    ensures !Predicts(g, ts, r, j, s)
    decreases s
  {
    if Predicts(g, ts, r, j, s) {
      var y := s.parent;
      if s.path.Snoc? {
        SpanEndsInToken(g, ts, y.irl, y.dot, y.origin, j, s.path);
      } else {
        NothingPredicted(g, ts, j, y.irl, s.up);
      }
    }
  }

  /** An earleme at which no token ends needs no Earley set. */
  lemma NoTokenNoItems(g: Grammar, ts: set<Token>, j: nat)
    requires RulesOk(g) && j > 0 && (forall t | t in ts :: t.end != j)
    ensures NoItems(g, ts, j)
  {
    forall x ensures !Valid(g, ts, x, j) {
      if Valid(g, ts, x, j) {
        var p :| Spans(g, ts, x.irl, x.dot, x.origin, j, p);
        if p.Snoc? {
          SpanEndsInToken(g, ts, x.irl, x.dot, x.origin, j, p);
        } else {
          var s :| Predicts(g, ts, x.irl, x.origin, s);
          NothingPredicted(g, ts, j, x.irl, s);
        }
      }
    }
  }

  /** A right incomplete item of an earlier set is in that set. */
  lemma EarlierItem(g: Grammar, ts: set<Token>, sets: Sets, n: nat, y: Item, m: nat)
    requires SetsOk(g, ts, sets, n) && m < n
    requires Valid(g, ts, y, m) && InRange(g, y) && !IsComplete(g, y)
    ensures m in sets && y in sets[m].items
  {
    assert m !in sets ==> NoItems(g, ts, m);
    assert SetOk(g, ts, sets, m);
    assert Covered(g, sets, sets[m].items, y);
  }

  /** By derivations alone: some right item at `j` waits for `a`. */
  ghost predicate Waited(g: Grammar, ts: set<Token>, j: nat, a: nat) {
    exists x :: Valid(g, ts, x, j) && PostdotIs(g, x, a)
  }

  lemma WaitersExact(g: Grammar, ts: set<Token>, sets: Sets, n: nat, j: nat, a: nat)
    requires RulesOk(g) && SetsOk(g, ts, sets, n) && j in sets
    ensures a in sets[j].postdot <==> Waited(g, ts, j, a)
  {
    assert j < n && SetOk(g, ts, sets, j);
    if a in sets[j].postdot {
      var pims := sets[j].postdot[a];
      assert PimsOk(g, sets[j].items, a, pims);
      var k := if pims[0].LimPim? then 1 else 0;
      assert pims[k].YimPim? && PostdotIs(g, pims[k].item, a) && pims[k].item in sets[j].items;
    }
    if x :| Valid(g, ts, x, j) && PostdotIs(g, x, a) {
      EarlierItem(g, ts, sets, n, x, j);
    }
  }

  /** If the cause of a step is covered, so is its effect. */
  lemma CoverEffect(g: Grammar, ts: set<Token>, sets: Sets, j: nat, items: seq<Item>, y: Item, x0: Item)
    requires SetsOk(g, ts, sets, j) && CompletionClosed(g, sets, items)
    requires InRange(g, x0) && x0.origin in sets && y in sets[x0.origin].items
    requires Completes(g, x0, Lhs(g, x0)) && PostdotIs(g, y, Lhs(g, x0))
    requires Covered(g, sets, items, x0)
    ensures Covered(g, sets, items, Next(y))
  {
    var m, a := x0.origin, Lhs(g, x0);
    assert SetOk(g, ts, sets, m);
    assert x0 in items ==> CompletionDone(g, sets, items, x0, a);
    if HasLim(sets[m].postdot, a) {
      var l := LimAt(sets[m].postdot, a);
      assert PimsOk(g, sets[m].items, a, sets[m].postdot[a]);
      assert YimPim(y) in sets[m].postdot[a];
      assert y == l.base;
      assert LimOk(g, sets, l);
      assert TopItem(g, l) in items;
    }
  }

  lemma {:induction false} CoverSpan(g: Grammar, ts: set<Token>, sets: Sets, j: nat, items: seq<Item>, x: Item, p: Path)
    requires RulesOk(g) && SetsOk(g, ts, sets, j) && Closed(g, ts, sets, j, items)
    requires Predicted(g, ts, x.irl, x.origin)
    requires p.Snoc? && Spans(g, ts, x.irl, x.dot, x.origin, j, p)
    ensures Covered(g, sets, items, x)
    decreases p
  {
    var y := Item(x.irl, x.dot - 1, x.origin);
    var m := p.mid;
    SpanOrder(g, ts, x.irl, x.dot, x.origin, j, p);
    assert Valid(g, ts, y, m);
    EarlierItem(g, ts, sets, j, y, m);
    match p.cause {
      case Scan =>
        var t := Token(Postdot(g, y), m, j);
        assert t in ts && y in sets[t.start].items && PostdotIs(g, y, t.symbol);
        assert x == Next(y);
      case Complete(q, cp) =>
        var x0 := Item(q, |g.irls[q].rhs|, m);
        ValidPredict(g, ts, y, q, m);
        assert Spans(g, ts, q, |g.irls[q].rhs|, m, j, cp) && g.irls[q].rhs != [];
        CoverSpan(g, ts, sets, j, items, x0, cp);
        CoverEffect(g, ts, sets, j, items, y, x0);
    }
  }

  lemma {:induction false} CoverPredicted(g: Grammar, ts: set<Token>, sets: Sets, j: nat, items: seq<Item>, r: nat,
      s: Spine)
    requires RulesOk(g) && SetsOk(g, ts, sets, j) && Closed(g, ts, sets, j, items)
    requires Predicts(g, ts, r, j, s)
    ensures Item(r, 0, j) in items
    decreases s
  {
    if s.Under? {
      var y := s.parent;
      if s.path.Snoc? {
        CoverSpan(g, ts, sets, j, items, y, s.path);
      } else {
        CoverPredicted(g, ts, sets, j, items, y.irl, s.up);
      }
      assert PostdotIs(g, y, g.irls[r].lhs);
    }
  }

  /** Earley completeness, one set at a time: a set closed under scanning, completion (with the Leo
      shortcut) and prediction covers every right item. */
  lemma ClosedIsComplete(g: Grammar, ts: set<Token>, sets: Sets, j: nat, items: seq<Item>)
    requires RulesOk(g) && SetsOk(g, ts, sets, j) && Closed(g, ts, sets, j, items)
    ensures SetComplete(g, ts, sets, j, items)
  {
    forall x | Valid(g, ts, x, j) ensures Covered(g, sets, items, x) {
      var p :| Spans(g, ts, x.irl, x.dot, x.origin, j, p);
      if p.Snoc? {
        CoverSpan(g, ts, sets, j, items, x, p);
      } else {
        var s :| Predicts(g, ts, x.irl, x.origin, s);
        CoverPredicted(g, ts, sets, j, items, x.irl, s);
      }
    }
  }

  // ---------------------------------------------------------------- soundness of the Leo shortcut

  lemma ValidLeo(g: Grammar, ts: set<Token>, x: Item, l: Lim, j: nat)
    requires InRange(g, x) && IsComplete(g, x) && Valid(g, ts, x, j)
    requires LimSound(g, ts, Lhs(g, x), x.origin, l)
    ensures Valid(g, ts, TopItem(g, l), j)
  {
    var p :| Spans(g, ts, x.irl, x.dot, x.origin, j, p);
    assert Causes(g, ts, Lhs(g, x), x.origin, j, Complete(x.irl, p));
  }

  // ---------------------------------------------------------------- frames

  /** Tokens that end later do not disturb a finished set. */
  lemma SetKeepsTokens(g: Grammar, ts: set<Token>, us: set<Token>, sets: Sets, j: nat)
    requires RulesOk(g) && SetOk(g, ts, sets, j) && ts <= us
    requires forall t | t in us && t !in ts :: t.end > j
    ensures SetOk(g, us, sets, j)
  {
    forall x | Valid(g, us, x, j) ensures Covered(g, sets, sets[j].items, x) {
      ValidLocal(g, us, ts, x, j);
    }
    forall x | x in sets[j].items ensures Valid(g, us, x, j) {
      ValidLocal(g, ts, us, x, j);
    }
    forall a: nat | HasLim(sets[j].postdot, a) ensures LimSound(g, us, a, j, LimAt(sets[j].postdot, a)) {
      var l := LimAt(sets[j].postdot, a);
      var s :| Predicts(g, ts, l.topIrl, l.origin.value, s);
      PredictLocal(g, ts, us, l.topIrl, l.origin.value, s);
    }
  }

  lemma SetsKeepTokens(g: Grammar, ts: set<Token>, us: set<Token>, sets: Sets, n: nat)
    requires RulesOk(g) && SetsOk(g, ts, sets, n) && ts <= us
    requires forall t | t in us && t !in ts :: t.end >= n
    ensures SetsOk(g, us, sets, n)
  {
    forall j | j in sets ensures SetOk(g, us, sets, j) {
      SetKeepsTokens(g, ts, us, sets, j);
    }
    forall j: nat, x | j < n && j !in sets ensures !Valid(g, us, x, j) {
      assert NoItems(g, ts, j);
      if Valid(g, us, x, j) {
        ValidLocal(g, us, ts, x, j);
      }
    }
  }

  lemma SetKeepsSets(g: Grammar, ts: set<Token>, sets: Sets, sets': Sets, j: nat)
    requires RulesOk(g) && SetOk(g, ts, sets, j)
    requires forall i | i <= j :: (i in sets <==> i in sets') && (i in sets ==> sets[i] == sets'[i])
    ensures SetOk(g, ts, sets', j)
  {
    forall x | Valid(g, ts, x, j) ensures Covered(g, sets', sets'[j].items, x) {
      ValidInRange(g, ts, x, j);
      assert Covered(g, sets, sets[j].items, x);
    }
    forall a: nat | HasLim(sets[j].postdot, a) ensures LimOk(g, sets', LimAt(sets[j].postdot, a)) {
      var l := LimAt(sets[j].postdot, a);
      assert PimsOk(g, sets[j].items, a, sets[j].postdot[a]);
      assert sets[j].postdot[a][1].item == l.base;
      ValidInRange(g, ts, l.base, j);
    }
  }

  /** Adding a right set keeps all sets right. */
  lemma SetsAdd(g: Grammar, ts: set<Token>, sets: Sets, n: nat, s: EarleySet)
    requires RulesOk(g) && SetsOk(g, ts, sets, n)
    requires SetOk(g, ts, sets[n := s], n)
    ensures SetsOk(g, ts, sets[n := s], n + 1)
  {
    forall j | j in sets ensures SetOk(g, ts, sets[n := s], j) {
      SetKeepsSets(g, ts, sets, sets[n := s], j);
    }
  }
}
