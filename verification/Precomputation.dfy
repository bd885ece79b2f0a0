/** The closures that precomputation attaches to a grammar. */
module Precomputation {
  import opened Grammars
  import opened Closures
  import opened BitMatrices

  /** The grammar before any closure has been attached. */
  function Bare(irls: seq<Irl>, start: nat, symbolCount: nat): Grammar {
    Grammar(irls, start, symbolCount, [], [], [])
  }

  ghost predicate IsLhs(g: Grammar, a: nat) {
    exists r: nat :: IsRule(g, r) && g.irls[r].lhs == a
  }

  ghost predicate LeftStep(g: Grammar, a: nat, b: nat) {
    exists r: nat :: IsRule(g, r) && g.irls[r].rhs != [] && g.irls[r].lhs == a && g.irls[r].rhs[0] == b
  }

  /** Leftmost steps, plus a bit on the diagonal for every left side. */
  ghost function LeftBits(g: Grammar): (e: Bits)
    ensures Square(e) && |e| == g.symbolCount
    ensures forall i: nat, j: nat | i < |e| && j < |e| :: e[i][j] <==> (i == j && IsLhs(g, i)) || LeftStep(g, i, j)
  {
    seq(g.symbolCount, i requires 0 <= i < g.symbolCount =>
      seq(g.symbolCount, j requires 0 <= j < g.symbolCount => (i == j && IsLhs(g, i)) || LeftStep(g, i, j)))
  }

  ghost function RightBits(g: Grammar): (e: Bits)
    ensures Square(e) && |e| == g.symbolCount
    ensures forall i: nat, j: nat | i < |e| && j < |e| :: e[i][j] <==> RightStep(g, i, j)
  {
    seq(g.symbolCount, i requires 0 <= i < g.symbolCount =>
      seq(g.symbolCount, j requires 0 <= j < g.symbolCount => RightStep(g, i, j)))
  }

  // ---------------------------------------------------------------- walks are chains of rules

  lemma {:induction false} WalkIsChain(g: Grammar, p: seq<nat>, r: nat)
    requires RulesOk(g) && IsRule(g, r)
    requires Walk(LeftBits(g), p) && p[|p| - 1] == g.irls[r].lhs
    ensures LeftReaches(g, p[0], r)
    decreases |p|
  {
    var e := LeftBits(g);
    assert Bit(e, p[0], p[1]);
    if |p| == 2 {
      assert LeftChain(g, [r]);
    } else {
      forall k, m | 0 <= k && m == k + 1 && m < |p[1..]| ensures Bit(e, p[1..][k], p[1..][m]) {
        assert Bit(e, p[k + 1], p[m + 1]);
      }
      WalkIsChain(g, p[1..], r);
    }
    assert LeftReaches(g, p[1], r);
    if p[0] != p[1] {
      ChainBefore(g, p[0], p[1], r);
    }
  }

  lemma ChainBefore(g: Grammar, a: nat, b: nat, r: nat)
    requires LeftStep(g, a, b) && LeftReaches(g, b, r)
    ensures LeftReaches(g, a, r)
  {
    var q: nat :| IsRule(g, q) && g.irls[q].rhs != [] && g.irls[q].lhs == a && g.irls[q].rhs[0] == b;
    var chain: seq<nat> :| |chain| > 0 && LeftChain(g, chain) && g.irls[chain[0]].lhs == b && chain[|chain| - 1] == r;
    var longer := [q] + chain;
    forall k | 0 < k < |longer| ensures g.irls[longer[k]].lhs == g.irls[longer[k - 1]].rhs[0] {
      assert k > 1 ==> longer[k] == chain[k - 1] && longer[k - 1] == chain[k - 2];
    }
    assert LeftChain(g, longer) && longer[|longer| - 1] == r;
  }

  lemma ChainIsWalk(g: Grammar, a: nat, r: nat)
    requires RulesOk(g) && LeftReaches(g, a, r)
    ensures IsRule(g, r) && a < g.symbolCount && Reaches(LeftBits(g), a, g.irls[r].lhs)
  {
    var chain: seq<nat> :| |chain| > 0 && LeftChain(g, chain) && g.irls[chain[0]].lhs == a && chain[|chain| - 1] == r;
    ChainSymbols(g, chain);
    hide LeftChain;
    if |chain| == 1 {
      assert Bit(LeftBits(g), a, a);
      OneStep(LeftBits(g), a, a);
    } else {
      var p := seq(|chain|, k requires 0 <= k < |chain| => g.irls[chain[k]].lhs);
      forall k, m | 0 <= k && m == k + 1 && m < |p| ensures Bit(LeftBits(g), p[k], p[m]) {
        ChainLink(g, chain, k);
      }
      hide LeftBits, Bit;
      assert Walk(LeftBits(g), p) && p[0] == a && p[|p| - 1] == g.irls[r].lhs;
    }
  }

  lemma ChainSymbols(g: Grammar, chain: seq<nat>)
    requires RulesOk(g) && LeftChain(g, chain)
    ensures forall k | 0 <= k < |chain| :: IsRule(g, chain[k]) && g.irls[chain[k]].lhs < g.symbolCount
  {
  }

  lemma ChainLink(g: Grammar, chain: seq<nat>, k: nat)
    requires RulesOk(g) && LeftChain(g, chain) && k + 1 < |chain|
    ensures Bit(LeftBits(g), g.irls[chain[k]].lhs, g.irls[chain[k + 1]].lhs)
  {
    var a, b := g.irls[chain[k]].lhs, g.irls[chain[k + 1]].lhs;
    assert g.irls[chain[k + 1]].lhs == g.irls[chain[k + 1 - 1]].rhs[0];
    assert LeftStep(g, a, b);
  }

  lemma OneStep(e: Bits, i: nat, j: nat)
    requires Bit(e, i, j)
    ensures Reaches(e, i, j)
  {
    var p := [i, j];
    assert Walk(e, p);
  }

  lemma LeftExact(g: Grammar, a: nat, r: nat)
    requires RulesOk(g) && a < g.symbolCount
    ensures LeftReaches(g, a, r) <==> IsRule(g, r) && Reaches(LeftBits(g), a, g.irls[r].lhs)
  {
    if LeftReaches(g, a, r) {
      ChainIsWalk(g, a, r);
    } else if IsRule(g, r) && Reaches(LeftBits(g), a, g.irls[r].lhs) {
      var p :| Walk(LeftBits(g), p) && p[0] == a && p[|p| - 1] == g.irls[r].lhs;
      WalkIsChain(g, p, r);
    }
  }

  lemma RightBit(g: Grammar, a: nat, b: nat)
    requires RulesOk(g)
    ensures RightStep(g, a, b) <==> Bit(RightBits(g), a, b)
  {
    if RightStep(g, a, b) {
      var q: nat :| IsRule(g, q) && g.irls[q].rhs != [] && g.irls[q].lhs == a
          && g.irls[q].rhs[|g.irls[q].rhs| - 1] == b;
      assert b in g.irls[q].rhs;
    }
  }

  lemma PathIsWalk(g: Grammar, p: seq<nat>)
    requires RulesOk(g) && |p| > 1
    ensures RightPath(g, p) <==> Walk(RightBits(g), p)
  {
    hide RightBits, RightStep, Bit, RulesOk;
    if RightPath(g, p) {
      forall k, m | 0 <= k && m == k + 1 && m < |p| ensures Bit(RightBits(g), p[k], p[m]) {
        assert RightStep(g, p[m - 1], p[m]);
        RightBit(g, p[k], p[m]);
      }
    }
    if Walk(RightBits(g), p) {
      forall k | 0 < k < |p| ensures RightStep(g, p[k - 1], p[k]) {
        assert Bit(RightBits(g), p[k - 1], p[k]);
        RightBit(g, p[k - 1], p[k]);
      }
    }
  }

  lemma RightExact(g: Grammar, r: nat)
    requires RulesOk(g) && IsRule(g, r)
    ensures RightRecursive(g, r) <==> Reaches(RightBits(g), g.irls[r].rhs[|g.irls[r].rhs| - 1], g.irls[r].lhs)
  {
    var from, to := g.irls[r].rhs[|g.irls[r].rhs| - 1], g.irls[r].lhs;
    if RightRecursive(g, r) {
      var p: seq<nat> :| |p| > 1 && RightPath(g, p) && p[0] == from && p[|p| - 1] == to;
      PathIsWalk(g, p);
    }
    if Reaches(RightBits(g), from, to) {
      var p :| Walk(RightBits(g), p) && p[0] == from && p[|p| - 1] == to;
      PathIsWalk(g, p);
    }
  }

  // ---------------------------------------------------------------- filling the matrices

  method LeftMatrix(g: Grammar) returns (m: BitMatrix)
    requires RulesOk(g)
    ensures fresh(m) && fresh(m.data) && Holds(m, LeftBits(g))
  {
    var size := g.symbolCount;
    m := new BitMatrix(size, size);
    for r := 0 to |g.irls|
      invariant m.Valid() && m.rows == m.columns == size && fresh(m) && fresh(m.data)
      invariant forall i: nat, j: nat | i < size && j < size ::
                  m.Has(i, j) <==> exists q: nat :: q < r && LeftSets(g, q, i, j)
    {
      assert IsRule(g, r) && g.irls[r].rhs[0] in g.irls[r].rhs;
      label before:
      m.Set(g.irls[r].lhs, g.irls[r].lhs);
      m.Set(g.irls[r].lhs, g.irls[r].rhs[0]);
      forall i: nat, j: nat | i < size && j < size
        ensures m.Has(i, j) <==> exists q: nat :: q < r + 1 && LeftSets(g, q, i, j)
      {
        assert m.Has(i, j) <==> old@before(m.Has(i, j)) || LeftSets(g, r, i, j);
        assert old@before(m.Has(i, j)) <==> exists q: nat :: q < r && LeftSets(g, q, i, j);
      }
    }
    forall i: nat, j: nat | i < size && j < size ensures m.Has(i, j) == LeftBits(g)[i][j] {
      LeftBit(g, i, j);
    }
  }

  /** The bits that rule `q` sets. */
  ghost predicate LeftSets(g: Grammar, q: nat, i: nat, j: nat) {
    IsRule(g, q) && g.irls[q].rhs != [] && g.irls[q].lhs == i && (i == j || g.irls[q].rhs[0] == j)
  }

  lemma LeftBit(g: Grammar, i: nat, j: nat)
    requires RulesOk(g) && i < g.symbolCount && j < g.symbolCount
    ensures LeftBits(g)[i][j] <==> exists q: nat :: q < |g.irls| && LeftSets(g, q, i, j)
  {
    if q: nat :| q < |g.irls| && LeftSets(g, q, i, j) {
      assert i == j ==> IsLhs(g, i);
      assert i != j ==> LeftStep(g, i, j);
    }
    if i == j && IsLhs(g, i) {
      var q: nat :| IsRule(g, q) && g.irls[q].lhs == i;
      assert LeftSets(g, q, i, j);
    }
    if LeftStep(g, i, j) {
      var q: nat :| IsRule(g, q) && g.irls[q].rhs != [] && g.irls[q].lhs == i && g.irls[q].rhs[0] == j;
      assert LeftSets(g, q, i, j);
    }
  }

  ghost predicate RightSets(g: Grammar, q: nat, i: nat, j: nat) {
    IsRule(g, q) && g.irls[q].rhs != [] && g.irls[q].lhs == i && g.irls[q].rhs[|g.irls[q].rhs| - 1] == j
  }

  method RightMatrix(g: Grammar) returns (m: BitMatrix)
    requires RulesOk(g)
    ensures fresh(m) && fresh(m.data) && Holds(m, RightBits(g))
  {
    var size := g.symbolCount;
    m := new BitMatrix(size, size);
    for r := 0 to |g.irls|
      invariant m.Valid() && m.rows == m.columns == size && fresh(m) && fresh(m.data)
      invariant forall i: nat, j: nat | i < size && j < size ::
                  m.Has(i, j) <==> exists q: nat :: q < r && RightSets(g, q, i, j)
    {
      assert IsRule(g, r) && g.irls[r].rhs[|g.irls[r].rhs| - 1] in g.irls[r].rhs;
      label before:
      m.Set(g.irls[r].lhs, g.irls[r].rhs[|g.irls[r].rhs| - 1]);
      forall i: nat, j: nat | i < size && j < size
        ensures m.Has(i, j) <==> exists q: nat :: q < r + 1 && RightSets(g, q, i, j)
      {
        assert m.Has(i, j) <==> old@before(m.Has(i, j)) || RightSets(g, r, i, j);
        assert old@before(m.Has(i, j)) <==> exists q: nat :: q < r && RightSets(g, q, i, j);
      }
    }
    forall i: nat, j: nat | i < size && j < size ensures m.Has(i, j) == RightBits(g)[i][j] {
      if RightStep(g, i, j) {
        var q: nat :| IsRule(g, q) && g.irls[q].rhs != [] && g.irls[q].lhs == i
            && g.irls[q].rhs[|g.irls[q].rhs| - 1] == j;
        assert RightSets(g, q, i, j);
      }
    }
  }

  // ---------------------------------------------------------------- the lists

  /** The rules for `a` itself. */
  method RulesFor(g: Grammar, a: nat) returns (rules: seq<nat>)
    ensures forall r: nat :: r in rules <==> IsRule(g, r) && g.irls[r].lhs == a
  {
    rules := [];
    for r := 0 to |g.irls|
      invariant forall q: nat :: q in rules <==> q < r && g.irls[q].lhs == a
    {
      if g.irls[r].lhs == a {
        rules := rules + [r];
      }
    }
  }

  /** Every rule whose left side the closed matrix reaches from `a`. */
  method ReachedRules(g: Grammar, m: BitMatrix, a: nat) returns (rules: seq<nat>)
    requires RulesOk(g) && a < g.symbolCount && ShowsReach(m, LeftBits(g))
    ensures forall r: nat :: r in rules <==> LeftReaches(g, a, r)
  {
    rules := [];
    for r := 0 to |g.irls|
      invariant forall q: nat :: q in rules <==> q < r && m.Has(a, g.irls[q].lhs)
    {
      assert IsRule(g, r);
      var reached := m.Test(a, g.irls[r].lhs);
      if reached {
        rules := rules + [r];
      }
    }
    forall r: nat ensures r in rules <==> LeftReaches(g, a, r) {
      LeftExact(g, a, r);
    }
  }

  lemma SameRules(irls: seq<Irl>, start: nat, n: nat, g: Grammar)
    requires g.irls == irls && g.start == start && g.symbolCount == n && RulesOk(Bare(irls, start, n))
    ensures RulesOk(g)
    ensures forall a: nat, r: nat :: LeftReaches(g, a, r) <==> LeftReaches(Bare(irls, start, n), a, r)
    ensures forall r: nat :: RightRecursive(g, r) <==> RightRecursive(Bare(irls, start, n), r)
  {
    var b := Bare(irls, start, n);
    assert forall c :: LeftChain(g, c) <==> LeftChain(b, c);
    forall p: seq<nat> ensures RightPath(g, p) <==> RightPath(b, p) {
      forall x: nat, y: nat ensures RightStep(g, x, y) <==> RightStep(b, x, y) {
        if RightStep(b, x, y) {
          var r: nat :| IsRule(b, r) && b.irls[r].rhs != [] && b.irls[r].lhs == x
              && b.irls[r].rhs[|b.irls[r].rhs| - 1] == y;
          assert IsRule(g, r);
        }
        if RightStep(g, x, y) {
          var r: nat :| IsRule(g, r) && g.irls[r].rhs != [] && g.irls[r].lhs == x
              && g.irls[r].rhs[|g.irls[r].rhs| - 1] == y;
          assert IsRule(b, r);
        }
      }
    }
  }

  lemma Assembled(g: Grammar)
    requires var b := Bare(g.irls, g.start, g.symbolCount);
             && RulesOk(b)
             && |g.predictions| == |g.rulesByLhs| == b.symbolCount
             && (forall a: nat, r: nat | a < b.symbolCount :: r in g.predictions[a] <==> LeftReaches(b, a, r))
             && (forall a: nat, r: nat | a < b.symbolCount :: r in g.rulesByLhs[a] <==>
                 IsRule(b, r) && b.irls[r].lhs == a)
             && |g.rightRecursive| == |b.irls|
             && (forall r: nat | IsRule(b, r) :: g.rightRecursive[r] <==> RightRecursive(b, r))
    ensures GrammarOk(g)
  {
    hide LeftReaches, RightRecursive;
    SameRules(g.irls, g.start, g.symbolCount, g);
    assert forall r: nat :: IsRule(g, r) <==> IsRule(Bare(g.irls, g.start, g.symbolCount), r);
  }

  /** Attach the prediction lists and the Leo flags: the result is what the recognizer requires. */
  method Precompute(irls: seq<Irl>, start: nat, symbolCount: nat) returns (g: Grammar)
    requires RulesOk(Bare(irls, start, symbolCount))
    ensures GrammarOk(g) && g.irls == irls && g.start == start && g.symbolCount == symbolCount
  {
    var b := Bare(irls, start, symbolCount);
    var predictions, rulesByLhs := Lists(b);
    var rightRecursive := LeoFlags(b);
    g := Grammar(irls, start, symbolCount, predictions, rulesByLhs, rightRecursive);
    Assembled(g);
  }

  method Lists(b: Grammar) returns (predictions: seq<seq<nat>>, rulesByLhs: seq<seq<nat>>)
    requires RulesOk(b)
    ensures |predictions| == |rulesByLhs| == b.symbolCount
    ensures forall a: nat, r: nat | a < b.symbolCount :: r in predictions[a] <==> LeftReaches(b, a, r)
    ensures forall a: nat, r: nat | a < b.symbolCount :: r in rulesByLhs[a] <==> IsRule(b, r) && b.irls[r].lhs == a
  {
    hide RulesOk, LeftReaches, Reaches;
    var m := LeftMatrix(b);
    TransitiveClosure(m, LeftBits(b));
    predictions, rulesByLhs := [], [];
    for a := 0 to b.symbolCount
      invariant ShowsReach(m, LeftBits(b))
      invariant |predictions| == |rulesByLhs| == a
      invariant forall i: nat, r: nat | i < a :: r in predictions[i] <==> LeftReaches(b, i, r)
      invariant forall i: nat, r: nat | i < a :: r in rulesByLhs[i] <==> IsRule(b, r) && b.irls[r].lhs == i
    {
      var reached := ReachedRules(b, m, a);
      var direct := RulesFor(b, a);
      predictions, rulesByLhs := predictions + [reached], rulesByLhs + [direct];
    }
  }

  method LeoFlags(b: Grammar) returns (flags: seq<bool>)
    requires RulesOk(b)
    ensures |flags| == |b.irls| && forall r: nat | IsRule(b, r) :: flags[r] <==> RightRecursive(b, r)
  {
    hide RightRecursive, Reaches;
    var m := RightMatrix(b);
    TransitiveClosure(m, RightBits(b));
    flags := [];
    for r := 0 to |b.irls|
      invariant ShowsReach(m, RightBits(b))
      invariant |flags| == r && forall q: nat | q < r :: flags[q] <==> RightRecursive(b, q)
    {
      var irl := b.irls[r];
      assert IsRule(b, r) && irl.rhs[|irl.rhs| - 1] in irl.rhs;
      RightExact(b, r);
      var flag := m.Test(irl.rhs[|irl.rhs| - 1], irl.lhs);
      flags := flags + [flag];
    }
  }
}
