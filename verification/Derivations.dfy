/** What it means for an Earley item to be right: derivations over a set of accepted tokens. */
module Derivations {
  import opened Grammars

  /** A token of symbol `symbol` read between two earlemes. */
  datatype Token = Token(symbol: nat, start: nat, end: nat)

  /** A dotted rule together with the earleme of its origin set. */
  datatype Item = Item(irl: nat, dot: nat, origin: nat)

  /** How the symbols before the dot were recognized, one step per symbol. */
  datatype Path = Nil | Snoc(prev: Path, mid: nat, cause: Cause)

  datatype Cause = Scan | Complete(irl: nat, path: Path)

  /** Why a rule was predicted: the chain of parent items up to the start rule. */
  datatype Spine = Root | Under(parent: Item, path: Path, up: Spine)

  ghost predicate Spans(g: Grammar, ts: set<Token>, r: nat, d: nat, i: nat, j: nat, p: Path)
    decreases p
  {
    && IsRule(g, r)
    && d <= |g.irls[r].rhs|
    && match p
       case Nil => d == 0 && i == j
       case Snoc(prev, m, c) =>
         d > 0 && Spans(g, ts, r, d - 1, i, m, prev) && Causes(g, ts, g.irls[r].rhs[d - 1], m, j, c)
  }

  ghost predicate Causes(g: Grammar, ts: set<Token>, a: nat, i: nat, j: nat, c: Cause)
    decreases c
  {
    match c
    case Scan => i < j && Token(a, i, j) in ts
    case Complete(r, p) => IsRule(g, r) && g.irls[r].lhs == a && Spans(g, ts, r, |g.irls[r].rhs|, i, j, p)
  }

  ghost predicate Predicts(g: Grammar, ts: set<Token>, r: nat, i: nat, s: Spine)
    decreases s
  {
    && IsRule(g, r)
    && match s
       case Root => r == g.start && i == 0
       case Under(y, p, up) =>
         && IsRule(g, y.irl)
         && y.dot < |g.irls[y.irl].rhs|
         && g.irls[y.irl].rhs[y.dot] == g.irls[r].lhs
         && Spans(g, ts, y.irl, y.dot, y.origin, i, p)
         && Predicts(g, ts, y.irl, y.origin, up)
  }

  ghost predicate Predicted(g: Grammar, ts: set<Token>, r: nat, i: nat) {
    exists s :: Predicts(g, ts, r, i, s)
  }

  ghost predicate Spanned(g: Grammar, ts: set<Token>, x: Item, j: nat) {
    exists p :: Spans(g, ts, x.irl, x.dot, x.origin, j, p)
  }

  /** The meaning of an Earley item in the set at earleme `j`: its rule is predicted at its origin
      by a valid prefix, and the symbols before its dot derive a token path from origin to `j`. */
  ghost predicate Valid(g: Grammar, ts: set<Token>, x: Item, j: nat) {
    Predicted(g, ts, x.irl, x.origin) && Spanned(g, ts, x, j)
  }

  predicate InRange(g: Grammar, x: Item) {
    IsRule(g, x.irl) && x.dot <= |g.irls[x.irl].rhs|
  }

  predicate IsComplete(g: Grammar, x: Item)
    requires InRange(g, x)
  {
    x.dot == |g.irls[x.irl].rhs|
  }

  function Postdot(g: Grammar, x: Item): nat
    requires InRange(g, x) && !IsComplete(g, x)
  {
    g.irls[x.irl].rhs[x.dot]
  }

  function Lhs(g: Grammar, x: Item): nat
    requires InRange(g, x)
  {
    g.irls[x.irl].lhs
  }

  function Next(x: Item): Item {
    x.(dot := x.dot + 1)
  }

  lemma {:induction false} SpanOrder(g: Grammar, ts: set<Token>, r: nat, d: nat, i: nat, j: nat, p: Path)
    requires RulesOk(g) && Spans(g, ts, r, d, i, j, p)
    ensures i <= j
    ensures p.Snoc? ==> p.mid < j && i < j
    decreases p
  {
    if p.Snoc? {
      SpanOrder(g, ts, r, d - 1, i, p.mid, p.prev);
      CauseOrder(g, ts, g.irls[r].rhs[d - 1], p.mid, j, p.cause);
    }
  }

  /** There are no empty rules, so every cause moves strictly forward. */
  lemma {:induction false} CauseOrder(g: Grammar, ts: set<Token>, a: nat, i: nat, j: nat, c: Cause)
    requires RulesOk(g) && Causes(g, ts, a, i, j, c)
    ensures i < j
    decreases c
  {
    if c.Complete? {
      SpanOrder(g, ts, c.irl, |g.irls[c.irl].rhs|, i, j, c.path);
    }
  }

  /** Derivations ending at `j` depend only on the tokens ending at or before `j`. */
  lemma {:induction false} SpanLocal(g: Grammar, ts: set<Token>, us: set<Token>, r: nat, d: nat, i: nat, j: nat,
      p: Path)
    requires RulesOk(g) && Spans(g, ts, r, d, i, j, p)
    requires forall t | t in ts && t.end <= j :: t in us
    ensures Spans(g, us, r, d, i, j, p)
    decreases p
  {
    if p.Snoc? {
      SpanOrder(g, ts, r, d, i, j, p);
      SpanLocal(g, ts, us, r, d - 1, i, p.mid, p.prev);
      CauseLocal(g, ts, us, g.irls[r].rhs[d - 1], p.mid, j, p.cause);
    }
  }

  lemma {:induction false} CauseLocal(g: Grammar, ts: set<Token>, us: set<Token>, a: nat, i: nat, j: nat, c: Cause)
    requires RulesOk(g) && Causes(g, ts, a, i, j, c)
    requires forall t | t in ts && t.end <= j :: t in us
    ensures Causes(g, us, a, i, j, c)
    decreases c
  {
    if c.Complete? {
      SpanLocal(g, ts, us, c.irl, |g.irls[c.irl].rhs|, i, j, c.path);
    }
  }

  lemma {:induction false} PredictLocal(g: Grammar, ts: set<Token>, us: set<Token>, r: nat, i: nat, s: Spine)
    requires RulesOk(g) && Predicts(g, ts, r, i, s)
    requires forall t | t in ts && t.end <= i :: t in us
    ensures Predicts(g, us, r, i, s)
    decreases s
  {
    if s.Under? {
      var y := s.parent;
      SpanOrder(g, ts, y.irl, y.dot, y.origin, i, s.path);
      SpanLocal(g, ts, us, y.irl, y.dot, y.origin, i, s.path);
      PredictLocal(g, ts, us, y.irl, y.origin, s.up);
    }
  }

  lemma ValidLocal(g: Grammar, ts: set<Token>, us: set<Token>, x: Item, j: nat)
    requires RulesOk(g) && Valid(g, ts, x, j)
    requires forall t | t in ts && t.end <= j :: t in us
    ensures Valid(g, us, x, j)
  {
    var s :| Predicts(g, ts, x.irl, x.origin, s);
    var p :| Spans(g, ts, x.irl, x.dot, x.origin, j, p);
    SpanOrder(g, ts, x.irl, x.dot, x.origin, j, p);
    SpanLocal(g, ts, us, x.irl, x.dot, x.origin, j, p);
    PredictLocal(g, ts, us, x.irl, x.origin, s);
  }

  lemma ValidInRange(g: Grammar, ts: set<Token>, x: Item, j: nat)
    requires RulesOk(g) && Valid(g, ts, x, j)
    ensures InRange(g, x) && x.origin <= j
    ensures x.dot > 0 <==> x.origin < j
  {
    var p :| Spans(g, ts, x.irl, x.dot, x.origin, j, p);
    SpanOrder(g, ts, x.irl, x.dot, x.origin, j, p);
  }

  lemma ValidScan(g: Grammar, ts: set<Token>, y: Item, i: nat, j: nat)
    requires Valid(g, ts, y, i) && InRange(g, y) && !IsComplete(g, y)
    requires i < j && Token(Postdot(g, y), i, j) in ts
    ensures Valid(g, ts, Next(y), j)
  {
    var p :| Spans(g, ts, y.irl, y.dot, y.origin, i, p);
    assert Causes(g, ts, Postdot(g, y), i, j, Scan);
    assert Spans(g, ts, y.irl, y.dot + 1, y.origin, j, Snoc(p, i, Scan));
  }

  lemma ValidComplete(g: Grammar, ts: set<Token>, y: Item, x: Item, j: nat)
    requires InRange(g, x) && IsComplete(g, x) && Valid(g, ts, x, j)
    requires InRange(g, y) && !IsComplete(g, y) && Valid(g, ts, y, x.origin)
    requires Postdot(g, y) == Lhs(g, x)
    ensures Valid(g, ts, Next(y), j)
  {
    var p :| Spans(g, ts, y.irl, y.dot, y.origin, x.origin, p);
    var q :| Spans(g, ts, x.irl, x.dot, x.origin, j, q);
    assert Causes(g, ts, Postdot(g, y), x.origin, j, Complete(x.irl, q));
    assert Spans(g, ts, y.irl, y.dot + 1, y.origin, j, Snoc(p, x.origin, Complete(x.irl, q)));
  }

  lemma ValidPredict(g: Grammar, ts: set<Token>, y: Item, r: nat, j: nat)
    requires InRange(g, y) && !IsComplete(g, y) && Valid(g, ts, y, j)
    requires IsRule(g, r) && g.irls[r].lhs == Postdot(g, y)
    ensures Valid(g, ts, Item(r, 0, j), j)
  {
    var p :| Spans(g, ts, y.irl, y.dot, y.origin, j, p);
    var s :| Predicts(g, ts, y.irl, y.origin, s);
    assert Predicts(g, ts, r, j, Under(y, p, s));
    assert Spans(g, ts, r, 0, j, j, Nil);
  }

  /** The first item of the first set. */
  lemma ValidStart(g: Grammar, ts: set<Token>)
    requires RulesOk(g)
    ensures Valid(g, ts, Item(g.start, 0, 0), 0)
  {
    assert Predicts(g, ts, g.start, 0, Root);
    assert Spans(g, ts, g.start, 0, 0, 0, Nil);
  }

  /** A whole prediction list is justified by the item that carries it. */
  lemma {:induction false} ValidPredictions(g: Grammar, ts: set<Token>, y: Item, chain: seq<nat>, j: nat)
    requires RulesOk(g)
    requires InRange(g, y) && !IsComplete(g, y) && Valid(g, ts, y, j)
    requires |chain| > 0 && LeftChain(g, chain) && g.irls[chain[0]].lhs == Postdot(g, y)
    ensures Valid(g, ts, Item(chain[|chain| - 1], 0, j), j)
    decreases |chain|
  {
    if |chain| == 1 {
      ValidPredict(g, ts, y, chain[0], j);
    } else {
      var front := chain[..|chain| - 1];
      assert forall k | 0 <= k < |front| :: front[k] == chain[k];
      ValidPredictions(g, ts, y, front, j);
      var z := Item(front[|front| - 1], 0, j);
      assert InRange(g, z) && !IsComplete(g, z);
      ValidPredict(g, ts, z, chain[|chain| - 1], j);
    }
  }
}
