/** Building the postdot index of a new Earley set, Leo items included. */
module PostdotItems {
  import opened Grammars
  import opened Derivations
  import opened EarleySets
  import opened LeoWalks

  ghost predicate AllInRange(g: Grammar, items: seq<Item>) {
    forall x | x in items :: InRange(g, x)
  }

  ghost predicate NoLims(postdot: Postdots) {
    forall a: nat :: !HasLim(postdot, a)
  }

  /** Everything known about the set at `j` before its index exists. */
  ghost predicate Ready(g: Grammar, ts: set<Token>, sets: Sets, j: nat, items: seq<Item>) {
    && GrammarOk(g)
    && SetsOk(g, ts, sets, j)
    && SetSound(g, ts, j, items)
    && SetComplete(g, ts, sets, j, items)
  }

  // ---------------------------------------------------------------- one list per postdot symbol

  /** Replacing one list by a right one that still holds the same Earley items keeps the index right. */
  lemma IndexUpdate(g: Grammar, items: seq<Item>, area: Postdots, a: nat, pims: seq<Pim>)
    requires IndexOk(g, items, area) && PimsOk(g, items, a, pims)
    requires a in area && forall y | YimPim(y) in area[a] :: YimPim(y) in pims
    ensures IndexOk(g, items, area[a := pims])
  {
  }

  /** The workarea after one more item has been put at the head of its list. */
  function WithPim(g: Grammar, area: Postdots, x: Item): Postdots
    requires InRange(g, x)
  {
    if IsComplete(g, x) then area
    else
      var a := Postdot(g, x);
      area[a := [YimPim(x)] + if a in area then area[a] else []]
  }

  lemma PimsWith(g: Grammar, items: seq<Item>, x: Item, area: Postdots, b: nat)
    requires IndexOk(g, items, area) && NoLims(area) && InRange(g, x) && x !in items && b in WithPim(g, area, x)
    ensures PimsOk(g, items + [x], b, WithPim(g, area, x)[b]) && !HasLim(WithPim(g, area, x), b)
  {
    var pims := WithPim(g, area, x)[b];
    if b in area {
      assert PimsOk(g, items, b, area[b]) && !HasLim(area, b);
      assert forall k | 0 <= k < |area[b]| :: area[b][k].YimPim?;
    }
    assert forall k | 0 <= k < |pims| ::
        pims[k].YimPim? && pims[k].item in items + [x] && PostdotIs(g, pims[k].item, b);
  }

  lemma IndexWith(g: Grammar, items: seq<Item>, x: Item, area: Postdots)
    requires IndexOk(g, items, area) && NoLims(area) && InRange(g, x) && x !in items
    ensures IndexOk(g, items + [x], WithPim(g, area, x)) && NoLims(WithPim(g, area, x))
  {
    var area' := WithPim(g, area, x);
    forall b: nat | b in area' ensures PimsOk(g, items + [x], b, area'[b]) && !HasLim(area', b) {
      PimsWith(g, items, x, area, b);
    }
    forall y, b: nat | y in items + [x] && PostdotIs(g, y, b) ensures b in area' && YimPim(y) in area'[b] {
      if y == x {
        assert area'[b][0] == YimPim(x);
      } else {
        assert b in area && YimPim(y) in area[b];
      }
    }
  }

  method CreatePims(g: Grammar, work: seq<Item>) returns (area: Postdots)
    requires AllInRange(g, work) && Distinct(work)
    ensures IndexOk(g, work, area) && NoLims(area)
  {
    area := map[];
    for ix := 0 to |work|
      invariant IndexOk(g, work[..ix], area) && NoLims(area)
    {
      var item := work[ix];
      assert item in work;
      assert work[..ix + 1] == work[..ix] + [item];
      IndexWith(g, work[..ix], item, area);
      if !IsComplete(g, item) {
        var a := Postdot(g, item);
        var oldPims := if a in area then area[a] else [];
        area := area[a := [YimPim(item)] + oldPims];
      }
    }
    assert work[..|work|] == work;
  }

  // ---------------------------------------------------------------- which symbols get a Leo item

  /** Exactly one item waits for the symbol, its rule is right-recursive, and the symbol is its last. */
  predicate LeoEligible(g: Grammar, area: Postdots, a: nat)
    requires |g.rightRecursive| == |g.irls|
    requires a in area && |area[a]| > 0 && area[a][0].YimPim? && InRange(g, area[a][0].item)
  {
    && |area[a]| == 1
    && g.rightRecursive[area[a][0].item.irl]
    && InRange(g, Next(area[a][0].item)) && IsComplete(g, Next(area[a][0].item))
  }

  /** A Leo item that has just been created, with its base right behind it. */
  ghost predicate FreshLim(g: Grammar, area: Postdots, a: nat)
    requires |g.rightRecursive| == |g.irls|
    requires HasLim(area, a)
  {
    var l := LimAt(area, a);
    InRange(g, l.base) && g.rightRecursive[l.base.irl]
  }

  ghost predicate LeoMark(g: Grammar, area: Postdots, a: nat) {
    && |g.rightRecursive| == |g.irls|
    && a in area && |area[a]| > 0 && area[a][0].YimPim? && InRange(g, area[a][0].item)
    && LeoEligible(g, area, a)
  }

  lemma IndexSymbol(g: Grammar, items: seq<Item>, area: Postdots, a: nat)
    requires RulesOk(g) && IndexOk(g, items, area) && a in area && !HasLim(area, a)
    ensures a < g.symbolCount
    ensures area[a] != [] && area[a][0].YimPim? && area[a][0].item in items && InRange(g, area[a][0].item)
  {
    assert PimsOk(g, items, a, area[a]);
    var y := area[a][0].item;
    assert PostdotIs(g, y, a);
    assert a in g.irls[y.irl].rhs;
  }

  /** The list of symbol `a` once the symbols below `n` have been looked at. */
  ghost function MarkedList(g: Grammar, area: Postdots, n: nat, a: nat): seq<Pim>
    requires a in area
  {
    if a < n && LeoMark(g, area, a)
    then [LimPim(Lim(area[a][0].item, area[a][0].item.irl, None))] + area[a]
    else area[a]
  }

  ghost predicate Marked(g: Grammar, area0: Postdots, area: Postdots, limSymbols: set<nat>, n: nat) {
    && area.Keys == area0.Keys
    && (forall a | a in area :: area[a] == MarkedList(g, area0, n, a))
    && (forall a: nat :: a in limSymbols <==> a < n && LeoMark(g, area0, a))
  }

  lemma MarkedStep(g: Grammar, area0: Postdots, area: Postdots, limSymbols: set<nat>, n: nat)
    requires Marked(g, area0, area, limSymbols, n)
    ensures n !in area || !LeoMark(g, area0, n) ==> Marked(g, area0, area, limSymbols, n + 1)
    ensures n in area && LeoMark(g, area0, n) ==>
              Marked(g, area0, area[n := MarkedList(g, area0, n + 1, n)], limSymbols + {n}, n + 1)
  {
  }

  /** The head of every list is an Earley item. */
  ghost predicate HeadsOk(g: Grammar, area: Postdots) {
    forall a | a in area :: area[a] != [] && area[a][0].YimPim? && InRange(g, area[a][0].item)
  }

  /** Leo items go exactly to the symbols that a single, final, right-recursive item waits for. */
  method MarkLims(g: Grammar, area0: Postdots) returns (area: Postdots, limSymbols: set<nat>)
    requires |g.rightRecursive| == |g.irls| && HeadsOk(g, area0)
    ensures Marked(g, area0, area, limSymbols, g.symbolCount)
  {
    area, limSymbols := area0, {};
    for nsy := 0 to g.symbolCount
      invariant Marked(g, area0, area, limSymbols, nsy)
    {
      MarkedStep(g, area0, area, limSymbols, nsy);
      if nsy in area {
        assert area[nsy] == area0[nsy];
        if LeoEligible(g, area, nsy) {
          var base := area[nsy][0].item;
          area := area[nsy := [LimPim(Lim(base, base.irl, None))] + area[nsy]];
          limSymbols := limSymbols + {nsy};
        }
      }
    }
  }

  lemma MarkedSymbol(g: Grammar, items: seq<Item>, area0: Postdots, area: Postdots, limSymbols: set<nat>, a: nat)
    requires GrammarOk(g) && IndexOk(g, items, area0) && NoLims(area0)
    requires Marked(g, area0, area, limSymbols, g.symbolCount) && a in area
    ensures a < g.symbolCount && PimsOk(g, items, a, area[a])
    ensures HasLim(area, a) <==> a in limSymbols
    ensures HasLim(area, a) ==> FreshLim(g, area, a) && LimAt(area, a).origin.None?
    ensures forall y | YimPim(y) in area0[a] :: YimPim(y) in area[a]
  {
    assert !HasLim(area0, a);
    IndexSymbol(g, items, area0, a);
    assert PimsOk(g, items, a, area0[a]);
    assert area[a] == MarkedList(g, area0, g.symbolCount, a);
    var pims := area0[a];
    hide GrammarOk, IndexOk;
    hide Marked;
    if LeoMark(g, area0, a) {
      var l := Lim(pims[0].item, pims[0].item.irl, None);
      assert area[a] == [LimPim(l), pims[0]];
      LimHead(g, items, a, pims, l);
    }
  }

  lemma LimHead(g: Grammar, items: seq<Item>, a: nat, pims: seq<Pim>, l: Lim)
    requires PimsOk(g, items, a, pims) && |pims| == 1 && pims[0].YimPim? && l.base == pims[0].item
    requires InRange(g, Next(l.base)) && IsComplete(g, Next(l.base))
    ensures PimsOk(g, items, a, [LimPim(l), pims[0]])
    ensures forall y | YimPim(y) in pims :: YimPim(y) in [LimPim(l), pims[0]]
  {
  }

  lemma MarkedIndex(g: Grammar, items: seq<Item>, area0: Postdots, area: Postdots, limSymbols: set<nat>)
    requires GrammarOk(g) && IndexOk(g, items, area0) && NoLims(area0)
    requires Marked(g, area0, area, limSymbols, g.symbolCount)
    ensures IndexOk(g, items, area)
    ensures forall a: nat :: HasLim(area, a) <==> a in limSymbols
    ensures forall a | a in limSymbols :: a < g.symbolCount && FreshLim(g, area, a) && LimAt(area, a).origin.None?
  {
    forall a: nat | a in area
      ensures a < g.symbolCount && PimsOk(g, items, a, area[a])
      ensures HasLim(area, a) <==> a in limSymbols
      ensures HasLim(area, a) ==> FreshLim(g, area, a) && LimAt(area, a).origin.None?
      ensures forall y | YimPim(y) in area0[a] :: YimPim(y) in area[a]
    {
      MarkedSymbol(g, items, area0, area, limSymbols, a);
    }
  }

  // ---------------------------------------------------------------- populating the Leo items

  /** The sets as they will be once the index under construction is installed. */
  ghost function View(sets: Sets, j: nat, items: seq<Item>, area: Postdots): Sets {
    sets[j := EarleySet(items, area)]
  }

  ghost predicate HasPredecessor(g: Grammar, sets: Sets, j: nat, area: Postdots, y: Item) {
    && InRange(g, y)
    && if y.origin < j
       then y.origin in sets && Lhs(g, y) in sets[y.origin].postdot && sets[y.origin].postdot[Lhs(g, y)] != []
       else y.origin == j && Lhs(g, y) in area && area[Lhs(g, y)] != []
  }

  /** The Leo item, if any, at the origin of the base for the base rule's own left side. */
  function PredecessorLim(g: Grammar, sets: Sets, j: nat, area: Postdots, y: Item): Option<Lim>
    requires HasPredecessor(g, sets, j, area, y)
  {
    var pim := if y.origin < j then sets[y.origin].postdot[Lhs(g, y)][0] else area[Lhs(g, y)][0];
    if pim.LimPim? then Some(pim.lim) else None
  }

  ghost predicate LimState(g: Grammar, ts: set<Token>, sets: Sets, j: nat, items: seq<Item>, area: Postdots, a: nat)
    requires HasLim(area, a)
  {
    && |g.rightRecursive| == |g.irls| && FreshLim(g, area, a)
    && (LimAt(area, a).origin.Some? ==>
          LimOk(g, View(sets, j, items, area), LimAt(area, a)) && LimSound(g, ts, a, j, LimAt(area, a)))
  }

  ghost predicate Populating(g: Grammar, ts: set<Token>, sets: Sets, j: nat, items: seq<Item>, area: Postdots) {
    && IndexOk(g, items, area)
    && forall a: nat | HasLim(area, a) :: LimState(g, ts, sets, j, items, area, a)
  }

  /** The base's rule was predicted at its origin, so something there waits for its left side. */
  lemma PredecessorExists(g: Grammar, ts: set<Token>, sets: Sets, j: nat, items: seq<Item>, area: Postdots, y: Item)
    requires Ready(g, ts, sets, j, items) && IndexOk(g, items, area)
    requires y in items && InRange(g, y) && g.rightRecursive[y.irl]
    ensures HasPredecessor(g, sets, j, area, y)
  {
    ValidInRange(g, ts, y, j);
    StartIsNotRightRecursive(g);
    var s :| Predicts(g, ts, y.irl, y.origin, s);
    var parent := s.parent;
    assert Predicts(g, ts, parent.irl, parent.origin, s.up);
    assert Valid(g, ts, parent, y.origin);
    assert PostdotIs(g, parent, Lhs(g, y));
    if y.origin < j {
      EarlierItem(g, ts, sets, j, parent, y.origin);
      assert SetOk(g, ts, sets, y.origin);
      assert PimsOk(g, sets[y.origin].items, Lhs(g, y), sets[y.origin].postdot[Lhs(g, y)]);
    } else {
      assert Covered(g, sets, items, parent);
      assert PimsOk(g, items, Lhs(g, y), area[Lhs(g, y)]);
    }
  }

  lemma LimSoundSelf(g: Grammar, ts: set<Token>, j: nat, a: nat, y: Item)
    requires RulesOk(g) && Valid(g, ts, y, j) && PostdotIs(g, y, a)
    requires InRange(g, Next(y)) && IsComplete(g, Next(y))
    ensures LimSound(g, ts, a, j, Lim(y, y.irl, Some(y.origin)))
  {
    ValidInRange(g, ts, y, j);
    var p :| Spans(g, ts, y.irl, y.dot, y.origin, j, p);
    forall us: set<Token>, e: nat, c | ts <= us && Causes(g, us, a, j, e, c)
      ensures Spanned(g, us, Next(y), e)
    {
      SpanLocal(g, ts, us, y.irl, y.dot, y.origin, j, p);
      assert Spans(g, us, y.irl, y.dot + 1, y.origin, e, Snoc(p, j, c));
    }
  }

  lemma LimSoundUp(g: Grammar, ts: set<Token>, j: nat, a: nat, y: Item, up: Lim)
    requires RulesOk(g) && Valid(g, ts, y, j) && PostdotIs(g, y, a)
    requires InRange(g, Next(y)) && IsComplete(g, Next(y))
    requires LimSound(g, ts, Lhs(g, y), y.origin, up)
    ensures LimSound(g, ts, a, j, Lim(y, up.topIrl, up.origin))
  {
    ValidInRange(g, ts, y, j);
    var p :| Spans(g, ts, y.irl, y.dot, y.origin, j, p);
    forall us: set<Token>, e: nat, c | ts <= us && Causes(g, us, a, j, e, c)
      ensures Spanned(g, us, TopItem(g, up), e)
    {
      SpanLocal(g, ts, us, y.irl, y.dot, y.origin, j, p);
      var q := Snoc(p, j, c);
      assert Spans(g, us, y.irl, y.dot + 1, y.origin, e, q);
      assert Causes(g, us, Lhs(g, y), y.origin, e, Complete(y.irl, q));
    }
  }

  function Populate(l: Lim, up: Option<Lim>): Lim {
    match up
    case Some(p) => Lim(l.base, p.topIrl, p.origin)
    case None => Lim(l.base, l.base.irl, Some(l.base.origin))
  }

  function Install(area: Postdots, a: nat, l: Lim): Postdots
    requires a in area && |area[a]| > 0
  {
    area[a := [LimPim(l)] + area[a][1..]]
  }

  lemma InstallIndex(g: Grammar, items: seq<Item>, area: Postdots, a: nat, l: Lim)
    requires IndexOk(g, items, area) && HasLim(area, a) && l.base == LimAt(area, a).base
    ensures IndexOk(g, items, Install(area, a, l))
  {
    assert PimsOk(g, items, a, area[a]);
    var pims := [LimPim(l), area[a][1]];
    assert Install(area, a, l)[a] == pims;
    assert PimsOk(g, items, a, pims);
    IndexUpdate(g, items, area, a, pims);
  }

  /** Populating one Leo item from an already populated predecessor, or from none, keeps the state right. */
  lemma PopulateOne(g: Grammar, ts: set<Token>, sets: Sets, j: nat, items: seq<Item>, area: Postdots, a: nat)
    requires Ready(g, ts, sets, j, items) && Populating(g, ts, sets, j, items, area)
    requires HasLim(area, a) && LimAt(area, a).origin.None?
    requires HasPredecessor(g, sets, j, area, LimAt(area, a).base)
    requires var up := PredecessorLim(g, sets, j, area, LimAt(area, a).base);
             up.Some? ==> up.value.origin.Some?
    ensures var up := PredecessorLim(g, sets, j, area, LimAt(area, a).base);
            Populating(g, ts, sets, j, items, Install(area, a, Populate(LimAt(area, a), up)))
  {
    hide PimsOk, IndexOk, Ready, LimSound;
    InstallIndex(g, items, area, a, Populate(LimAt(area, a), PredecessorLim(g, sets, j, area, LimAt(area, a).base)));
    var l' := Populate(LimAt(area, a), PredecessorLim(g, sets, j, area, LimAt(area, a).base));
    var area' := Install(area, a, l');
    PopulatedSound(g, ts, sets, j, items, area, a);
    PopulatedLimOk(g, ts, sets, j, items, area, a);
    forall c: nat | HasLim(area', c) ensures LimState(g, ts, sets, j, items, area', c) {
      assert HasLim(area, c) && LimState(g, ts, sets, j, items, area, c);
      if c != a && LimAt(area, c).origin.Some? {
        KeepLimOk(g, sets, j, items, area, a, l', LimAt(area, c));
      }
    }
  }

  lemma KeepLimOk(g: Grammar, sets: Sets, j: nat, items: seq<Item>, area: Postdots, a: nat, l': Lim, m: Lim)
    requires HasLim(area, a) && LimAt(area, a).origin.None?
    requires LimOk(g, View(sets, j, items, area), m)
    ensures LimOk(g, View(sets, j, items, Install(area, a, l')), m)
  {
  }

  lemma PopulatedLimOk(g: Grammar, ts: set<Token>, sets: Sets, j: nat, items: seq<Item>, area: Postdots, a: nat)
    requires Ready(g, ts, sets, j, items) && Populating(g, ts, sets, j, items, area)
    requires HasLim(area, a) && LimAt(area, a).origin.None?
    requires HasPredecessor(g, sets, j, area, LimAt(area, a).base)
    requires var up := PredecessorLim(g, sets, j, area, LimAt(area, a).base);
             up.Some? ==> up.value.origin.Some?
    ensures var l := Populate(LimAt(area, a), PredecessorLim(g, sets, j, area, LimAt(area, a).base));
            LimOk(g, View(sets, j, items, Install(area, a, l)), l)
  {
    var y := LimAt(area, a).base;
    var up := PredecessorLim(g, sets, j, area, y);
    var v := View(sets, j, items, area);
    var k, b := y.origin, Lhs(g, y);
    assert PimsOk(g, items, a, area[a]);
    if up.Some? {
      if k < j {
        assert SetOk(g, ts, sets, k) && HasLim(sets[k].postdot, b);
      } else {
        assert HasLim(area, b) && LimState(g, ts, sets, j, items, area, b);
      }
    }
  }

  lemma PopulatedSound(g: Grammar, ts: set<Token>, sets: Sets, j: nat, items: seq<Item>, area: Postdots, a: nat)
    requires Ready(g, ts, sets, j, items) && Populating(g, ts, sets, j, items, area)
    requires HasLim(area, a)
    requires HasPredecessor(g, sets, j, area, LimAt(area, a).base)
    requires var up := PredecessorLim(g, sets, j, area, LimAt(area, a).base);
             up.Some? ==> up.value.origin.Some?
    ensures var up := PredecessorLim(g, sets, j, area, LimAt(area, a).base);
            LimSound(g, ts, a, j, Populate(LimAt(area, a), up))
  {
    var y := LimAt(area, a).base;
    var up := PredecessorLim(g, sets, j, area, y);
    assert PimsOk(g, items, a, area[a]);
    assert area[a][1].item == y;
    var b := Lhs(g, y);
    if up.None? {
      LimSoundSelf(g, ts, j, a, y);
    } else {
      if y.origin < j {
        assert SetOk(g, ts, sets, y.origin) && HasLim(sets[y.origin].postdot, b);
      } else {
        assert HasLim(area, b) && LimState(g, ts, sets, j, items, area, b);
      }
      LimSoundUp(g, ts, j, a, y, up.value);
    }
  }

  // ---------------------------------------------------------------- chains of Leo items

  /** Every Leo item of `c` has its base at the current set and its predecessor again in `c`. */
  ghost predicate UnitCycle(g: Grammar, j: nat, area: Postdots, c: set<nat>) {
    forall a | a in c ::
      && HasLim(area, a) && InRange(g, LimAt(area, a).base)
      && LimAt(area, a).base.origin == j && Lhs(g, LimAt(area, a).base) in c
  }

  /** Prediction is well-founded, so no set of Leo items can justify itself, cyclic grammar or not. */
  lemma {:induction false} UnitDescent(g: Grammar, ts: set<Token>, sets: Sets, j: nat, items: seq<Item>, area: Postdots,
                                       c: set<nat>, a: nat, s: Spine)
    requires RulesOk(g) && SetComplete(g, ts, sets, j, items) && IndexOk(g, items, area)
    requires a in c && UnitCycle(g, j, area, c)
    requires Predicts(g, ts, LimAt(area, a).base.irl, j, s)
    ensures false
    decreases s
  {
    var b := Lhs(g, LimAt(area, a).base);
    BaseOf(g, items, area, b);
    assert b in g.irls[LimAt(area, b).base.irl].rhs;
    assert s.Under?;
    assert Predicts(g, ts, s.parent.irl, s.parent.origin, s.up);
    SoleWaiter(g, ts, sets, j, items, area, b, s.parent);
    UnitDescent(g, ts, sets, j, items, area, c, b, s.up);
  }

  lemma NoUnitCycle(g: Grammar, ts: set<Token>, sets: Sets, j: nat, items: seq<Item>, area: Postdots, c: set<nat>,
      a: nat)
    requires Ready(g, ts, sets, j, items) && IndexOk(g, items, area)
    requires a in c
    ensures !UnitCycle(g, j, area, c)
  {
    if UnitCycle(g, j, area, c) {
      var y := LimAt(area, a).base;
      BaseOf(g, items, area, a);
      assert Valid(g, ts, y, j);
      var s :| Predicts(g, ts, y.irl, j, s);
      UnitDescent(g, ts, sets, j, items, area, c, a, s);
    }
  }

  ghost predicate Pending(g: Grammar, area: Postdots, a: nat) {
    HasLim(area, a) && InRange(g, LimAt(area, a).base) && LimAt(area, a).origin.None?
  }

  ghost predicate LinkedPair(g: Grammar, j: nat, area: Postdots, a: nat, b: nat) {
    Pending(g, area, a) && LimAt(area, a).base.origin == j && Lhs(g, LimAt(area, a).base) == b
  }

  /** Each Leo item of the chain is the predecessor of the one before it, all still unpopulated. */
  ghost predicate Linked(g: Grammar, j: nat, area: Postdots, chain: seq<nat>) {
    && (forall k | 0 <= k < |chain| :: Pending(g, area, chain[k]))
    && (forall k, m | 0 <= k && m == k + 1 && m < |chain| :: LinkedPair(g, j, area, chain[k], chain[m]))
  }

  /** A Leo item whose predecessor is unpopulated has that predecessor in the current set. */
  lemma PredecessorIsHere(g: Grammar, ts: set<Token>, sets: Sets, j: nat, items: seq<Item>, area: Postdots, a: nat)
    requires Ready(g, ts, sets, j, items) && Populating(g, ts, sets, j, items, area) && Pending(g, area, a)
    ensures var y := LimAt(area, a).base;
            && HasPredecessor(g, sets, j, area, y)
            && var up := PredecessorLim(g, sets, j, area, y);
               up.Some? && up.value.origin.None? ==>
                 y.origin == j && Pending(g, area, Lhs(g, y)) && up.value == LimAt(area, Lhs(g, y))
  {
    var y := LimAt(area, a).base;
    assert LimState(g, ts, sets, j, items, area, a);
    assert PimsOk(g, items, a, area[a]) && area[a][1].item == y;
    PredecessorExists(g, ts, sets, j, items, area, y);
    var b := Lhs(g, y);
    if y.origin < j {
      assert SetOk(g, ts, sets, y.origin);
      assert HasLim(sets[y.origin].postdot, b) ==> LimOk(g, sets, LimAt(sets[y.origin].postdot, b));
    } else {
      assert HasLim(area, b) ==> LimState(g, ts, sets, j, items, area, b);
    }
  }

  /** The next symbol of a chain cannot already be in it. */
  lemma ChainNeverLoops(g: Grammar, ts: set<Token>, sets: Sets, j: nat, items: seq<Item>, area: Postdots,
      chain: seq<nat>, next: nat)
    requires Ready(g, ts, sets, j, items) && IndexOk(g, items, area)
    requires chain != [] && Linked(g, j, area, chain + [next])
    ensures next !in chain
  {
    if next in chain {
      var c := set k | 0 <= k < |chain| :: chain[k];
      LinkedCycle(g, j, area, chain, next, c);
      NoUnitCycle(g, ts, sets, j, items, area, c, next);
    }
  }

  lemma LinkedCycle(g: Grammar, j: nat, area: Postdots, chain: seq<nat>, next: nat, c: set<nat>)
    requires Linked(g, j, area, chain + [next])
    requires c == set k | 0 <= k < |chain| :: chain[k]
    requires next in c
    ensures UnitCycle(g, j, area, c)
  {
    var linked := chain + [next];
    forall a | a in c ensures exists b :: b in c && LinkedPair(g, j, area, a, b) {
      var k :| 0 <= k < |chain| && chain[k] == a;
      assert LinkedPair(g, j, area, linked[k], linked[k + 1]);
    }
  }

  /** The working state of the population loops. `ok` is the source's bit vector of symbols not yet chained. */
  ghost predicate Working(g: Grammar, ts: set<Token>, sets: Sets, j: nat, items: seq<Item>,
                          area: Postdots, limSymbols: set<nat>) {
    && Ready(g, ts, sets, j, items)
    && Populating(g, ts, sets, j, items, area)
    && (forall a: nat :: a in limSymbols <==> HasLim(area, a))
  }

  ghost predicate IsPopulated(area: Postdots, a: nat) {
    HasLim(area, a) && LimAt(area, a).origin.Some?
  }

  lemma WorkingPending(g: Grammar, ts: set<Token>, sets: Sets, j: nat, items: seq<Item>, area: Postdots,
      limSymbols: set<nat>, a: nat)
    requires Working(g, ts, sets, j, items, area, limSymbols) && a in limSymbols
    ensures HasLim(area, a) && InRange(g, LimAt(area, a).base)
    ensures Pending(g, area, a) || IsPopulated(area, a)
  {
    assert LimState(g, ts, sets, j, items, area, a);
  }

  lemma InstallKeeps(g: Grammar, ts: set<Token>, sets: Sets, j: nat, items: seq<Item>, area: Postdots,
      limSymbols: set<nat>, a: nat)
    requires Working(g, ts, sets, j, items, area, limSymbols) && Pending(g, area, a)
    requires HasPredecessor(g, sets, j, area, LimAt(area, a).base)
    requires var up := PredecessorLim(g, sets, j, area, LimAt(area, a).base);
             up.Some? ==> up.value.origin.Some?
    ensures var up := PredecessorLim(g, sets, j, area, LimAt(area, a).base);
            var area' := Install(area, a, Populate(LimAt(area, a), up));
            && Working(g, ts, sets, j, items, area', limSymbols)
            && IsPopulated(area', a)
            && forall b: nat | b != a && b in area :: area'[b] == area[b]
  {
    hide Ready, IndexOk, PimsOk, LimState;
    var up := PredecessorLim(g, sets, j, area, LimAt(area, a).base);
    PopulateOne(g, ts, sets, j, items, area, a);
    hide Populating;
    var area' := Install(area, a, Populate(LimAt(area, a), up));
    forall b: nat ensures HasLim(area', b) <==> HasLim(area, b) {}
  }

  ghost predicate ChainState(g: Grammar, sets: Sets, j: nat, area: Postdots, limSymbols: set<nat>,
                             first: nat, ok0: set<nat>, chain: seq<nat>, ok: set<nat>, up: Option<Lim>) {
    && chain != [] && chain[0] == first && first !in ok && Linked(g, j, area, chain)
    && |chain| + |ok| == |ok0|
    && ok <= limSymbols
    && (forall a | a in limSymbols :: a in ok || a in chain || IsPopulated(area, a))
    && Pending(g, area, chain[|chain| - 1])
    && HasPredecessor(g, sets, j, area, LimAt(area, chain[|chain| - 1]).base)
    && up == PredecessorLim(g, sets, j, area, LimAt(area, chain[|chain| - 1]).base)
    && (forall p, q | 0 <= p < q < |chain| :: chain[p] != chain[q])
  }

  /** The chain can always be extended while its last predecessor is unpopulated: the bit of the next
      symbol is still set, so the loop is never cut short. */
  lemma ChainStep(g: Grammar, ts: set<Token>, sets: Sets, j: nat, items: seq<Item>, area: Postdots,
      limSymbols: set<nat>,
                  first: nat, ok0: set<nat>, chain: seq<nat>, ok: set<nat>, up: Option<Lim>)
    requires Working(g, ts, sets, j, items, area, limSymbols)
    requires ChainState(g, sets, j, area, limSymbols, first, ok0, chain, ok, up)
    requires up.Some? && up.value.origin.None?
    ensures var next := Lhs(g, LimAt(area, chain[|chain| - 1]).base);
            && next in ok && HasLim(area, next)
            && HasPredecessor(g, sets, j, area, LimAt(area, next).base)
            && ChainState(g, sets, j, area, limSymbols, first, ok0, chain + [next], ok - {next},
                          PredecessorLim(g, sets, j, area, LimAt(area, next).base))
  {
    hide Ready, IndexOk, PimsOk, LimState;
    var last := chain[|chain| - 1];
    PredecessorIsHere(g, ts, sets, j, items, area, last);
    var next := Lhs(g, LimAt(area, last).base);
    LinkedSnoc(g, j, area, chain, next);
    ChainNeverLoops(g, ts, sets, j, items, area, chain, next);
    PredecessorIsHere(g, ts, sets, j, items, area, next);
    var chain' := chain + [next];
    assert chain'[|chain'| - 1] == next;
    assert forall a | a in chain :: a in chain';
    assert next in chain';
  }

  lemma LinkedSnoc(g: Grammar, j: nat, area: Postdots, chain: seq<nat>, next: nat)
    requires chain != [] && Linked(g, j, area, chain) && Pending(g, area, next)
    requires LinkedPair(g, j, area, chain[|chain| - 1], next)
    ensures Linked(g, j, area, chain + [next])
  {
  }

  /** Follow predecessors within the current set until one is populated or there is none. The chain
      buffer never holds more Leo items than there are symbols. */
  method BuildChain(g: Grammar, ghost ts: set<Token>, sets: Sets, j: nat, ghost items: seq<Item>,
                    area: Postdots, ghost limSymbols: set<nat>, first: nat, firstUp: Option<Lim>, ok0: set<nat>)
    returns (chain: seq<nat>, ok: set<nat>, up: Option<Lim>)
    requires Working(g, ts, sets, j, items, area, limSymbols)
    requires ChainState(g, sets, j, area, limSymbols, first, ok0, [first], ok0 - {first}, firstUp)
    requires firstUp.Some? && firstUp.value.origin.None?
    ensures ChainState(g, sets, j, area, limSymbols, first, ok0, chain, ok, up)
    ensures up.Some? ==> up.value.origin.Some?
    ensures |chain| <= |ok0|
  {
    chain, ok, up := [first], ok0 - {first}, firstUp;
    while true
      invariant ChainState(g, sets, j, area, limSymbols, first, ok0, chain, ok, up)
      invariant up.Some? && up.value.origin.None?
      decreases ok
    {
      var next := Lhs(g, LimAt(area, chain[|chain| - 1]).base);
      ChainStep(g, ts, sets, j, items, area, limSymbols, first, ok0, chain, ok, up);
      if next !in ok {
        assert false;
        break;
      }
      up := PredecessorLim(g, sets, j, area, LimAt(area, next).base);
      chain := chain + [next];
      ok := ok - {next};
      if up.None? || up.value.origin.Some? {
        break;
      }
    }
  }

  // ---------------------------------------------------------------- the population loops

  /** What is left of a chain while it is populated from its end. */
  ghost predicate Unwinding(g: Grammar, sets: Sets, j: nat, area: Postdots, limSymbols: set<nat>,
                            rest: seq<nat>, ok: set<nat>, up: Option<Lim>) {
    && Linked(g, j, area, rest)
    && (forall p, q | 0 <= p < q < |rest| :: rest[p] != rest[q])
    && (forall a | a in limSymbols :: a in ok || a in rest || IsPopulated(area, a))
    && (up.Some? ==> up.value.origin.Some?)
    && (rest != [] ==> EndsWith(g, sets, j, area, rest[|rest| - 1], up))
  }

  ghost predicate EndsWith(g: Grammar, sets: Sets, j: nat, area: Postdots, a: nat, up: Option<Lim>) {
    && Pending(g, area, a)
    && HasPredecessor(g, sets, j, area, LimAt(area, a).base)
    && up == PredecessorLim(g, sets, j, area, LimAt(area, a).base)
  }

  lemma LinkedPrefix(g: Grammar, j: nat, area: Postdots, area': Postdots, chain: seq<nat>, a: nat)
    requires Linked(g, j, area, chain + [a])
    requires forall b | b in chain :: b in area' && b in area && area'[b] == area[b]
    ensures Linked(g, j, area', chain)
  {
    var whole := chain + [a];
    assert forall k | 0 <= k < |chain| :: whole[k] == chain[k];
    forall k | 0 <= k < |chain| ensures Pending(g, area', chain[k]) {
      assert Pending(g, area, whole[k]);
    }
    forall k, m | 0 <= k && m == k + 1 && m < |chain| ensures LinkedPair(g, j, area', chain[k], chain[m]) {
      assert LinkedPair(g, j, area, whole[k], whole[m]);
    }
  }

  lemma UnwindTail(g: Grammar, j: nat, area: Postdots, area': Postdots, limSymbols: set<nat>, rest: seq<nat>, a: nat,
      ok: set<nat>)
    requires Linked(g, j, area, rest + [a])
    requires forall p, q | 0 <= p < q < |rest + [a]| :: (rest + [a])[p] != (rest + [a])[q]
    requires forall b | b in limSymbols :: b in ok || b in rest + [a] || IsPopulated(area, b)
    requires IsPopulated(area', a) && area'.Keys == area.Keys && forall b | b in area && b != a :: area'[b] == area[b]
    ensures Linked(g, j, area', rest)
    ensures forall p, q | 0 <= p < q < |rest| :: rest[p] != rest[q]
    ensures forall b | b in limSymbols :: b in ok || b in rest || IsPopulated(area', b)
    ensures rest != [] ==> LinkedPair(g, j, area', rest[|rest| - 1], a)
  {
    var whole := rest + [a];
    forall k | 0 <= k < |rest| ensures rest[k] != a && rest[k] in area && area'[rest[k]] == area[rest[k]] {
      assert whole[k] != whole[|rest|] && Pending(g, area, whole[k]);
    }
    LinkedPrefix(g, j, area, area', rest, a);
    forall p, q | 0 <= p < q < |rest| ensures rest[p] != rest[q] {
      assert whole[p] != whole[q];
    }
    if rest != [] {
      var n := |rest| - 1;
      assert LinkedPair(g, j, area, whole[n], whole[n + 1]);
    }
  }

  lemma UnwindStep(g: Grammar, ts: set<Token>, sets: Sets, j: nat, items: seq<Item>, area: Postdots,
      limSymbols: set<nat>,
                   rest: seq<nat>, a: nat, ok: set<nat>, up: Option<Lim>)
    requires Working(g, ts, sets, j, items, area, limSymbols)
    requires Unwinding(g, sets, j, area, limSymbols, rest + [a], ok, up)
    ensures Pending(g, area, a)
    ensures var l := Populate(LimAt(area, a), up);
            && Working(g, ts, sets, j, items, Install(area, a, l), limSymbols)
            && Unwinding(g, sets, j, Install(area, a, l), limSymbols, rest, ok, Some(l))
  {
    hide Ready, Populating, IndexOk, PimsOk, LimState;
    assert EndsWith(g, sets, j, area, (rest + [a])[|rest|], up);
    InstallKeeps(g, ts, sets, j, items, area, limSymbols, a);
    var l := Populate(LimAt(area, a), up);
    var area' := Install(area, a, l);
    UnwindTail(g, j, area, area', limSymbols, rest, a, ok);
    if rest != [] {
      UnwindPredecessor(g, ts, sets, j, items, area', limSymbols, rest[|rest| - 1], a, l);
    }
  }

  lemma UnwindPredecessor(g: Grammar, ts: set<Token>, sets: Sets, j: nat, items: seq<Item>, area: Postdots,
                          limSymbols: set<nat>, b: nat, a: nat, l: Lim)
    requires Working(g, ts, sets, j, items, area, limSymbols)
    requires HasLim(area, a) && LimAt(area, a) == l
    ensures LinkedPair(g, j, area, b, a) ==> EndsWith(g, sets, j, area, b, Some(l))
  {
    if LinkedPair(g, j, area, b, a) {
      PredecessorIsHere(g, ts, sets, j, items, area, b);
    }
  }

  method UnwindChain(g: Grammar, ghost ts: set<Token>, ghost sets: Sets, ghost j: nat, ghost items: seq<Item>,
                     area0: Postdots, ghost limSymbols: set<nat>, chain: seq<nat>, ghost ok: set<nat>, up0: Option<Lim>)
    returns (area: Postdots)
    requires Working(g, ts, sets, j, items, area0, limSymbols)
    requires Unwinding(g, sets, j, area0, limSymbols, chain, ok, up0)
    ensures Working(g, ts, sets, j, items, area, limSymbols)
    ensures forall a | a in limSymbols :: a in ok || IsPopulated(area, a)
    ensures forall a | IsPopulated(area0, a) :: IsPopulated(area, a)
  {
    hide Working, Linked, EndsWith;
    area := area0;
    var up, rest := up0, chain;
    while rest != []
      invariant Working(g, ts, sets, j, items, area, limSymbols)
      invariant Unwinding(g, sets, j, area, limSymbols, rest, ok, up)
      invariant forall a | IsPopulated(area0, a) :: IsPopulated(area, a)
    {
      var a := rest[|rest| - 1];
      assert rest == rest[..|rest| - 1] + [a];
      rest := rest[..|rest| - 1];
      UnwindStep(g, ts, sets, j, items, area, limSymbols, rest, a, ok, up);
      var l := Populate(LimAt(area, a), up);
      area := Install(area, a, l);
      up := Some(l);
    }
  }

  ghost predicate Progress(area: Postdots, limSymbols: set<nat>, ok: set<nat>) {
    ok <= limSymbols && forall a | a in limSymbols :: a in ok || IsPopulated(area, a)
  }

  ghost predicate KeepsPopulated(area: Postdots, area': Postdots) {
    forall a | IsPopulated(area, a) :: IsPopulated(area', a)
  }

  lemma ChainStart(g: Grammar, ts: set<Token>, sets: Sets, j: nat, items: seq<Item>, area: Postdots,
      limSymbols: set<nat>,
                   a: nat, ok: set<nat>)
    requires Working(g, ts, sets, j, items, area, limSymbols)
    requires Progress(area, limSymbols, ok) && HasLim(area, a) && LimAt(area, a).origin.None?
    ensures a in ok && Pending(g, area, a)
    ensures HasPredecessor(g, sets, j, area, LimAt(area, a).base)
    ensures ChainState(g, sets, j, area, limSymbols, a, ok, [a], ok - {a},
                       PredecessorLim(g, sets, j, area, LimAt(area, a).base))
  {
    hide Ready, IndexOk, PimsOk, LimState, Populating;
    WorkingPending(g, ts, sets, j, items, area, limSymbols, a);
    PredecessorIsHere(g, ts, sets, j, items, area, a);
  }

  /** Populate one Leo item, together with every unpopulated one it depends on. */
  method PopulateSymbol(g: Grammar, ghost ts: set<Token>, sets: Sets, j: nat, ghost items: seq<Item>,
                        area0: Postdots, ghost limSymbols: set<nat>, a: nat, ok0: set<nat>)
    returns (area: Postdots, ok: set<nat>)
    requires Working(g, ts, sets, j, items, area0, limSymbols)
    requires Progress(area0, limSymbols, ok0) && HasLim(area0, a) && LimAt(area0, a).origin.None?
    ensures Working(g, ts, sets, j, items, area, limSymbols)
    ensures Progress(area, limSymbols, ok) && KeepsPopulated(area0, area) && IsPopulated(area, a)
  {
    hide Working, Linked, HasPredecessor;
    area, ok := area0, ok0;
    ChainStart(g, ts, sets, j, items, area, limSymbols, a, ok);
    var up := PredecessorLim(g, sets, j, area, LimAt(area, a).base);
    if up.None? || up.value.origin.Some? {
      InstallKeeps(g, ts, sets, j, items, area, limSymbols, a);
      area := Install(area, a, Populate(LimAt(area, a), up));
      return;
    }
    var chain;
    chain, ok, up := BuildChain(g, ts, sets, j, items, area, limSymbols, a, up, ok0);
    area := UnwindChain(g, ts, sets, j, items, area, limSymbols, chain, ok, up);
  }

  method PopulateLims(g: Grammar, ghost ts: set<Token>, sets: Sets, j: nat, ghost items: seq<Item>,
                      area0: Postdots, limSymbols: set<nat>)
    returns (area: Postdots)
    requires Working(g, ts, sets, j, items, area0, limSymbols)
    requires forall a | a in limSymbols :: a < g.symbolCount
    ensures Working(g, ts, sets, j, items, area, limSymbols)
    ensures forall a | a in limSymbols :: IsPopulated(area, a)
  {
    hide Working;
    area := area0;
    var ok := limSymbols;
    for nsy := 0 to g.symbolCount
      invariant Working(g, ts, sets, j, items, area, limSymbols) && Progress(area, limSymbols, ok)
      invariant forall a | a in limSymbols && a < nsy :: IsPopulated(area, a)
    {
      if nsy in limSymbols {
        WorkingPending(g, ts, sets, j, items, area, limSymbols, nsy);
        if LimAt(area, nsy).origin.None? {
          ghost var before := area;
          area, ok := PopulateSymbol(g, ts, sets, j, items, area, limSymbols, nsy, ok);
          assert KeepsPopulated(before, area);
        }
      }
    }
  }

  lemma PopulatedLimsOk(g: Grammar, ts: set<Token>, sets: Sets, j: nat, items: seq<Item>, area: Postdots,
      limSymbols: set<nat>)
    requires Working(g, ts, sets, j, items, area, limSymbols)
    requires forall a | a in limSymbols :: IsPopulated(area, a)
    ensures LimsOk(g, ts, View(sets, j, items, area), j)
  {
    forall a: nat | HasLim(area, a)
      ensures LimOk(g, View(sets, j, items, area), LimAt(area, a)) && LimSound(g, ts, a, j, LimAt(area, a))
    {
      assert LimState(g, ts, sets, j, items, area, a) && IsPopulated(area, a);
    }
  }

  lemma StartPopulating(g: Grammar, ts: set<Token>, sets: Sets, j: nat, items: seq<Item>, area0: Postdots,
      area: Postdots, limSymbols: set<nat>)
    requires Ready(g, ts, sets, j, items) && IndexOk(g, items, area0) && NoLims(area0)
    requires Marked(g, area0, area, limSymbols, g.symbolCount)
    ensures Working(g, ts, sets, j, items, area, limSymbols)
    ensures forall a | a in limSymbols :: a < g.symbolCount
  {
    MarkedIndex(g, items, area0, area, limSymbols);
    forall a: nat | HasLim(area, a) ensures LimState(g, ts, sets, j, items, area, a) {
      assert a in limSymbols;
    }
  }

  lemma HeadsAreItems(g: Grammar, items: seq<Item>, area: Postdots)
    requires RulesOk(g) && IndexOk(g, items, area) && NoLims(area)
    ensures HeadsOk(g, area)
  {
    forall a | a in area ensures area[a] != [] && area[a][0].YimPim? && InRange(g, area[a][0].item) {
      assert !HasLim(area, a);
      IndexSymbol(g, items, area, a);
    }
  }

  lemma FinishedSetOk(g: Grammar, ts: set<Token>, sets: Sets, j: nat, items: seq<Item>, postdot: Postdots)
    requires Ready(g, ts, sets, j, items) && IndexOk(g, items, postdot)
    requires LimsOk(g, ts, View(sets, j, items, postdot), j)
    ensures SetsOk(g, ts, View(sets, j, items, postdot), j + 1)
  {
    var sets' := View(sets, j, items, postdot);
    forall x | Valid(g, ts, x, j) ensures Covered(g, sets', items, x) {
      assert Covered(g, sets, items, x);
    }
    SetsAdd(g, ts, sets, j, EarleySet(items, postdot));
  }

  /** The symbols that get Leo items, told from the items alone. */
  lemma MarkIsEligible(g: Grammar, items: seq<Item>, area: Postdots, a: nat)
    requires GrammarOk(g) && IndexOk(g, items, area) && NoLims(area)
    ensures LeoMark(g, area, a) <==> Eligible(g, items, a)
  {
    if a in area {
      IndexSymbol(g, items, area, a);
      assert PimsOk(g, items, a, area[a]);
      var y := area[a][0].item;
      if LeoMark(g, area, a) {
        assert forall z | z in items && PostdotIs(g, z, a) :: YimPim(z) in area[a];
        assert SoleFinal(g, items, a, y);
      }
      if z :| SoleFinal(g, items, a, z) {
        assert PostdotIs(g, y, a) && y == z;
        OneWaiter(g, items, a, area[a], z);
      }
    }
  }

  lemma OneWaiter(g: Grammar, items: seq<Item>, a: nat, pims: seq<Pim>, z: Item)
    requires PimsOk(g, items, a, pims) && pims[0].YimPim? && SoleFinal(g, items, a, z)
    ensures |pims| == 1
  {
    assert |pims| > 1 ==> pims[0] != pims[1];
    forall k | 0 <= k < |pims| ensures pims[k] == YimPim(z) {
      assert pims[k].YimPim?;
    }
  }

  lemma ReadyRules(g: Grammar, ts: set<Token>, sets: Sets, j: nat, items: seq<Item>)
    requires Ready(g, ts, sets, j, items)
    ensures GrammarOk(g) && RulesOk(g) && |g.rightRecursive| == |g.irls|
    ensures forall area | NoLims(area) && IndexOk(g, items, area) :: LimsOk(g, ts, View(sets, j, items, area), j)
    ensures forall area, a: nat | NoLims(area) :: !HasLim(area, a)
  {
  }

  /** What holds of the index once every marked symbol is populated. */
  lemma PopulatedExact(g: Grammar, ts: set<Token>, sets: Sets, j: nat, items: seq<Item>, area0: Postdots,
      postdot: Postdots,
                       limSymbols: set<nat>)
    requires Working(g, ts, sets, j, items, postdot, limSymbols) && forall a | a in limSymbols ::
        IsPopulated(postdot, a)
    requires IndexOk(g, items, area0) && NoLims(area0) && forall a: nat :: a in limSymbols <==> LeoMark(g, area0, a)
    ensures IndexOk(g, items, postdot) && LimsOk(g, ts, View(sets, j, items, postdot), j)
    ensures forall a: nat :: HasLim(postdot, a) <==> Eligible(g, items, a)
    ensures forall a: nat | HasLim(postdot, a) :: HasWalk(g, View(sets, j, items, postdot), LimAt(postdot, a))
  {
    PopulatedLimsOk(g, ts, sets, j, items, postdot, limSymbols);
    forall a: nat ensures HasLim(postdot, a) <==> Eligible(g, items, a) {
      MarkIsEligible(g, items, area0, a);
    }
    hide IndexOk, LimsOk, SetsOk, HasWalk, RulesOk;
    FinishedSetOk(g, ts, sets, j, items, postdot);
    forall a: nat | HasLim(postdot, a) ensures HasWalk(g, View(sets, j, items, postdot), LimAt(postdot, a)) {
      MemoIsWalk(g, ts, View(sets, j, items, postdot), j + 1, j, a);
    }
  }

  /** The marked symbols are all in range, so marking ends with every one of them. */
  lemma MarkedAll(g: Grammar, items: seq<Item>, area0: Postdots, area: Postdots, limSymbols: set<nat>)
    requires RulesOk(g) && IndexOk(g, items, area0) && NoLims(area0)
        && Marked(g, area0, area, limSymbols, g.symbolCount)
    ensures forall a: nat :: a in limSymbols <==> LeoMark(g, area0, a)
  {
    forall a: nat | a in area0 ensures a < g.symbolCount {
      IndexSymbol(g, items, area0, a);
    }
  }

  /** The index of the set at `j`. Whatever the grammar, exactly the eligible symbols have Leo items, and every one of
      them ends up populated with the end of the walk it stands for. */
  method PostdotItemsCreate(g: Grammar, ghost ts: set<Token>, sets: Sets, j: nat, items: seq<Item>, useLeo: bool)
    returns (postdot: Postdots)
    requires Ready(g, ts, sets, j, items) && AllInRange(g, items) && Distinct(items)
    ensures IndexOk(g, items, postdot)
    ensures LimsOk(g, ts, View(sets, j, items, postdot), j)
    ensures forall a: nat :: HasLim(postdot, a) <==> useLeo && Eligible(g, items, a)
    ensures forall a: nat | HasLim(postdot, a) :: HasWalk(g, View(sets, j, items, postdot), LimAt(postdot, a))
  {
    hide Ready, IndexOk, LimsOk, NoLims, HasLim, HasWalk, Eligible, Working, HeadsOk, LeoMark, GrammarOk, AllInRange,
        Distinct;
    ReadyRules(g, ts, sets, j, items);
    postdot := CreatePims(g, items);
    if useLeo {
      ghost var area0 := postdot;
      HeadsAreItems(g, items, postdot);
      var limSymbols;
      postdot, limSymbols := MarkLims(g, postdot);
      StartPopulating(g, ts, sets, j, items, area0, postdot, limSymbols);
      MarkedAll(g, items, area0, postdot, limSymbols);
      postdot := PopulateLims(g, ts, sets, j, items, postdot, limSymbols);
      PopulatedExact(g, ts, sets, j, items, area0, postdot, limSymbols);
    }
  }
}
