/** The grammar as the recognizer sees it after precomputation.

  Nulling symbols never carry a dot, so `rhs` lists the non-nulling right-hand symbols only;
  an Aycock-Horspool item is then a rule together with a dot position 0..|rhs|. */
module Grammars {

  datatype Irl = Irl(lhs: nat, rhs: seq<nat>)

  /** `predictions[a]` is the rule list attached to every item with postdot symbol `a`;
      `rulesByLhs[a]` lists the rules for `a` itself; `rightRecursive[r]` is the flag that makes
      rule `r` eligible for Leo items. */
  datatype Grammar = Grammar(
    irls: seq<Irl>,
    start: nat,
    symbolCount: nat,
    predictions: seq<seq<nat>>,
    rulesByLhs: seq<seq<nat>>,
    rightRecursive: seq<bool>)

  predicate IsRule(g: Grammar, r: nat) {
    r < |g.irls|
  }

  /** Rules are non-empty, and the start rule's left side occurs nowhere else. */
  ghost predicate RulesOk(g: Grammar) {
    && g.start < |g.irls|
    && (forall r: nat | IsRule(g, r) ::
          && g.irls[r].rhs != []
          && g.irls[r].lhs < g.symbolCount
          && (forall a | a in g.irls[r].rhs :: a < g.symbolCount && a != g.irls[g.start].lhs)
          && (g.irls[r].lhs == g.irls[g.start].lhs ==> r == g.start))
  }

  /** A chain of rules, each expanding the leftmost symbol of the one before it. */
  ghost predicate LeftChain(g: Grammar, chain: seq<nat>) {
    && (forall k | 0 <= k < |chain| :: IsRule(g, chain[k]) && g.irls[chain[k]].rhs != [])
    && (forall k | 0 < k < |chain| :: g.irls[chain[k]].lhs == g.irls[chain[k - 1]].rhs[0])
  }

  /** Rule `r` heads some expansion of `a`, reached through leftmost symbols only. */
  ghost predicate LeftReaches(g: Grammar, a: nat, r: nat) {
    exists chain: seq<nat> {:trigger LeftChain(g, chain)} ::
      |chain| > 0 && LeftChain(g, chain) && g.irls[chain[0]].lhs == a && chain[|chain| - 1] == r
  }

  ghost predicate PredictionsOk(g: Grammar) {
    && |g.predictions| == g.symbolCount
    && (forall a: nat, r: nat | a < g.symbolCount ::
          r in g.predictions[a] <==> LeftReaches(g, a, r))
    && |g.rulesByLhs| == g.symbolCount
    && (forall a: nat, r: nat | a < g.symbolCount ::
          r in g.rulesByLhs[a] <==> IsRule(g, r) && g.irls[r].lhs == a)
  }

  /** Every symbol of the path but the first is the last symbol of a rule for the one before it. */
  ghost predicate RightPath(g: Grammar, path: seq<nat>) {
    forall k | 0 < k < |path| :: RightStep(g, path[k - 1], path[k])
  }

  ghost predicate RightStep(g: Grammar, a: nat, b: nat) {
    exists r: nat :: IsRule(g, r) && g.irls[r].rhs != [] && g.irls[r].lhs == a
        && g.irls[r].rhs[|g.irls[r].rhs| - 1] == b
  }

  /** The last symbol of the rule leads back to its left side, in one or more rightmost steps. */
  ghost predicate RightRecursive(g: Grammar, r: nat) {
    && IsRule(g, r)
    && g.irls[r].rhs != []
    && exists path: seq<nat> {:trigger RightPath(g, path)} ::
         |path| > 1 && RightPath(g, path)
         && path[0] == g.irls[r].rhs[|g.irls[r].rhs| - 1] && path[|path| - 1] == g.irls[r].lhs
  }

  ghost predicate LeoFlagsOk(g: Grammar) {
    && |g.rightRecursive| == |g.irls|
    && (forall r: nat | IsRule(g, r) :: g.rightRecursive[r] <==> RightRecursive(g, r))
  }

  ghost predicate GrammarOk(g: Grammar) {
    RulesOk(g) && PredictionsOk(g) && LeoFlagsOk(g)
  }

  lemma RightStepAvoidsStart(g: Grammar, a: nat, b: nat)
    requires RulesOk(g) && RightStep(g, a, b)
    ensures b != g.irls[g.start].lhs
  {
    var r: nat :| IsRule(g, r) && g.irls[r].rhs != [] && g.irls[r].lhs == a && g.irls[r].rhs[|g.irls[r].rhs| - 1] == b;
    assert b in g.irls[r].rhs;
  }

  /** The start rule is never eligible for Leo items: nothing leads back to its left side. */
  lemma StartIsNotRightRecursive(g: Grammar)
    requires GrammarOk(g)
    ensures !g.rightRecursive[g.start]
  {
    if g.rightRecursive[g.start] {
      var path: seq<nat> :| |path| > 1 && RightPath(g, path) && path[|path| - 1] == g.irls[g.start].lhs;
      RightStepAvoidsStart(g, path[|path| - 2], path[|path| - 1]);
    }
  }

  lemma PredictionsHoldDirect(g: Grammar, a: nat, r: nat)
    requires GrammarOk(g) && IsRule(g, r) && g.irls[r].lhs == a
    ensures r in g.predictions[a]
  {
    assert LeftChain(g, [r]);
  }

  /** One pass suffices: a prediction list is already closed under further prediction. */
  lemma PredictionsAreClosed(g: Grammar, a: nat, q: nat, r: nat)
    requires GrammarOk(g) && a < g.symbolCount && q in g.predictions[a]
    requires IsRule(g, q) && IsRule(g, r) && g.irls[r].lhs == g.irls[q].rhs[0]
    ensures r in g.predictions[a]
  {
    var chain: seq<nat> :| |chain| > 0 && LeftChain(g, chain) && g.irls[chain[0]].lhs == a && chain[|chain| - 1] == q;
    assert LeftChain(g, chain + [r]);
    assert (chain + [r])[|chain + [r]| - 1] == r;
  }
}
