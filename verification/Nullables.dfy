/** The closure that finds nullable and productive symbols: bottom up, from the rules' right sides. */
module Nullables {

  /** An external rule. A sequence has its item for a right-hand side; `separator` is negative for none, and `proper`
      separation forbids a separator at the end. */
  datatype Xrl = Xrl(lhs: nat, rhs: seq<nat>, isSequence: bool, minimum: int, separator: int, proper: bool)

  predicate RuleOk(n: nat, rule: Xrl) {
    rule.lhs < n && rule.separator < n && (rule.isSequence ==> |rule.rhs| == 1) && forall a | a in rule.rhs :: a < n
  }

  predicate RulesOk(n: nat, rules: seq<Xrl>) {
    forall r | 0 <= r < |rules| :: RuleOk(n, rules[r])
  }

  /** A sequence of two or more items needs its separator too. */
  predicate NeedsSeparator(rule: Xrl) {
    rule.isSequence && rule.minimum >= 2 && rule.separator >= 0
  }

  /** The symbols the rule needs are all there. */
  ghost predicate Supported(rule: Xrl, s: set<nat>) {
    && (forall a | a in rule.rhs :: a in s)
    && (NeedsSeparator(rule) ==> rule.separator in s)
  }

  /** Whenever all that a rule needs is there, its left side is there. */
  ghost predicate Closed(rules: seq<Xrl>, s: set<nat>) {
    forall r | 0 <= r < |rules| && Supported(rules[r], s) :: rules[r].lhs in s
  }

  ghost predicate HasEmptyRules(rules: seq<Xrl>, s: set<nat>) {
    forall r | 0 <= r < |rules| && rules[r].rhs == [] :: rules[r].lhs in s
  }

  /** The rule is looked at when this symbol turns up. */
  predicate Mentions(rule: Xrl, a: nat) {
    a in rule.rhs || (rule.isSequence && rule.separator == a)
  }

  // ---------------------------------------------------------------- the index

  datatype Pair = Pair(symbol: nat, rule: nat)

  ghost predicate PairsSorted(pairs: seq<Pair>) {
    forall k, m | 0 <= k < m < |pairs| ::
      pairs[k].symbol < pairs[m].symbol || (pairs[k].symbol == pairs[m].symbol && pairs[k].rule < pairs[m].rule)
  }

  /** Rules by symbol: those for `a` are `data[starts[a]..starts[a + 1]]`. */
  ghost predicate IndexOk(n: nat, starts: seq<nat>, data: seq<nat>) {
    |starts| == n + 1 && forall a, b | 0 <= a <= b <= n :: starts[a] <= starts[b] <= |data|
  }

  ghost predicate InRun(starts: seq<nat>, data: seq<nat>, a: nat, r: nat)
    requires a + 1 < |starts|
  {
    exists k: nat :: starts[a] <= k < starts[a + 1] && k < |data| && data[k] == r
  }

  ghost predicate IndexOf(n: nat, pairs: seq<Pair>, starts: seq<nat>, data: seq<nat>) {
    IndexOk(n, starts, data) && forall a: nat, r: nat | a < n :: Pair(a, r) in pairs <==> InRun(starts, data, a, r)
  }

  /** Position `p` is where the pairs with symbol `a` or more begin. */
  ghost predicate StartOk(pairs: seq<Pair>, a: nat, p: nat) {
    && p <= |pairs|
    && (forall k | 0 <= k < p :: pairs[k].symbol < a)
    && (forall k | p <= k < |pairs| :: pairs[k].symbol >= a)
  }

  ghost predicate StartsOk(pairs: seq<Pair>, starts: seq<nat>) {
    forall a | 0 <= a < |starts| :: StartOk(pairs, a, starts[a])
  }

  lemma StartHere(pairs: seq<Pair>, starts: seq<nat>, p: nat)
    requires PairsSorted(pairs) && StartsOk(pairs, starts) && p <= |pairs|
    requires p > 0 ==> pairs[p - 1].symbol < |starts|
    requires p < |pairs| ==> pairs[p].symbol >= |starts|
    ensures StartsOk(pairs, starts + [p])
  {
    assert StartOk(pairs, |starts|, p);
    forall a | 0 <= a < |starts + [p]| ensures StartOk(pairs, a, (starts + [p])[a]) {
      assert a < |starts| ==> (starts + [p])[a] == starts[a];
    }
  }

  lemma StartsIndex(n: nat, pairs: seq<Pair>, starts: seq<nat>, data: seq<nat>)
    requires |starts| == n + 1 && |data| == |pairs| && StartsOk(pairs, starts)
    requires forall k | 0 <= k < |pairs| :: data[k] == pairs[k].rule
    ensures IndexOf(n, pairs, starts, data)
  {
    forall a, b | 0 <= a <= b <= n ensures starts[a] <= starts[b] <= |data| {
      assert StartOk(pairs, a, starts[a]) && StartOk(pairs, b, starts[b]);
      assert starts[b] < |pairs| ==> pairs[starts[b]].symbol >= b;
    }
    forall a: nat, r: nat | a < n ensures Pair(a, r) in pairs <==> InRun(starts, data, a, r) {
      assert StartOk(pairs, a, starts[a]) && StartOk(pairs, a + 1, starts[a + 1]);
      if Pair(a, r) in pairs {
        var k :| 0 <= k < |pairs| && pairs[k] == Pair(a, r);
        assert starts[a] <= k < starts[a + 1] && data[k] == r;
      }
      if InRun(starts, data, a, r) {
        var k: nat :| starts[a] <= k < starts[a + 1] && k < |data| && data[k] == r;
        assert pairs[k] == Pair(a, r);
      }
    }
  }

  /** Lay the sorted pairs out, symbol by symbol. */
  method BuildIndex(n: nat, pairs: seq<Pair>) returns (starts: seq<nat>, data: seq<nat>)
    requires PairsSorted(pairs) && forall k | 0 <= k < |pairs| :: pairs[k].symbol < n
    ensures IndexOf(n, pairs, starts, data)
  {
    hide StartsOk, IndexOf;
    starts, data := [], [];
    assert StartsOk(pairs, starts) by { NoStarts(pairs); }
    for k := 0 to |pairs|
      invariant |data| == k && forall m | 0 <= m < k :: data[m] == pairs[m].rule
      invariant StartsOk(pairs, starts)
      invariant if k == 0 then starts == [] else |starts| == pairs[k - 1].symbol + 1
    {
      var current := pairs[k].symbol;
      assert k > 0 ==> pairs[k - 1].symbol <= current;
      while |starts| <= current
        invariant |starts| <= current + 1
        invariant StartsOk(pairs, starts) && (k > 0 ==> |starts| >= pairs[k - 1].symbol + 1)
      {
        StartHere(pairs, starts, k);
        starts := starts + [|data|];
      }
      data := data + [pairs[k].rule];
    }
    while |starts| <= n
      invariant |starts| <= n + 1 && StartsOk(pairs, starts)
      invariant |pairs| > 0 ==> |starts| >= pairs[|pairs| - 1].symbol + 1
    {
      StartHere(pairs, starts, |pairs|);
      starts := starts + [|data|];
    }
    StartsIndex(n, pairs, starts, data);
  }

  lemma NoStarts(pairs: seq<Pair>)
    ensures StartsOk(pairs, [])
  {
  }

  ghost predicate PairsOf(n: nat, rules: seq<Xrl>, pairs: seq<Pair>) {
    forall a: nat, r: nat :: Pair(a, r) in pairs <==> r < |rules| && a < n && Mentions(rules[r], a)
  }

  // ---------------------------------------------------------------- the closure

  ghost function Bits(bv: array<bool>): set<nat>
    reads bv
  {
    set a: nat | a < bv.Length && bv[a]
  }

  /** A symbol waiting on the stack will bring up every rule still to be applied. */
  ghost predicate Awaited(rules: seq<Xrl>, s: set<nat>, waiting: seq<nat>) {
    forall r | 0 <= r < |rules| && rules[r].rhs != [] && Supported(rules[r], s) && rules[r].lhs !in s ::
      exists a :: a in waiting && Mentions(rules[r], a)
  }

  ghost predicate StackOk(s: set<nat>, waiting: seq<nat>) {
    && (forall k | 0 <= k < |waiting| :: waiting[k] in s)
    && (forall k, m | 0 <= k < m < |waiting| :: waiting[k] != waiting[m])
  }

  ghost function Below(n: nat): (s: set<nat>)
    ensures |s| == n && forall a: nat :: a in s <==> a < n
  {
    if n == 0 then {} else Below(n - 1) + {n - 1}
  }

  lemma SubsetSize(s: set<nat>, t: set<nat>)
    requires s <= t
    ensures |s| <= |t|
    ensures s < t ==> |s| < |t|
  {
    if s != {} {
      var x :| x in s;
      SubsetSize(s - {x}, t - {x});
    }
  }

  lemma DistinctSize(waiting: seq<nat>, s: set<nat>)
    requires StackOk(s, waiting)
    ensures |waiting| <= |s|
  {
    if waiting != [] {
      var last := |waiting| - 1;
      DistinctSize(waiting[..last], s - {waiting[last]});
    }
  }

  /** A stack of one slot a symbol is always high enough for another symbol. */
  lemma RoomLeft(n: nat, s: set<nat>, waiting: seq<nat>, a: nat)
    requires StackOk(s, waiting) && (forall b | b in s :: b < n) && a < n && a !in s
    ensures |waiting| < n
  {
    DistinctSize(waiting, s);
    assert s < Below(n) by { assert s <= Below(n) && a in Below(n); }
    SubsetSize(s, Below(n));
  }

  lemma AwaitedStart(rules: seq<Xrl>, s: set<nat>, waiting: seq<nat>)
    requires forall a | a in s :: a in waiting
    ensures Awaited(rules, s, waiting)
  {
    forall r | 0 <= r < |rules| && rules[r].rhs != [] && Supported(rules[r], s) && rules[r].lhs !in s
      ensures exists a :: a in waiting && Mentions(rules[r], a)
    {
      assert rules[r].rhs[0] in waiting && Mentions(rules[r], rules[r].rhs[0]);
    }
  }

  /** As `Awaited`, while symbol `b` is being dealt with: the rules from `data[k]` on are still to come. */
  ghost predicate Half(rules: seq<Xrl>, s: set<nat>, waiting: seq<nat>, b: nat, data: seq<nat>, k: nat, end: nat) {
    forall r: nat | r < |rules| && rules[r].rhs != [] && Supported(rules[r], s) && rules[r].lhs !in s ::
      (exists a :: a in waiting && Mentions(rules[r], a)) || (Mentions(rules[r], b) && Coming(data, k, end, r))
  }

  ghost predicate Coming(data: seq<nat>, k: nat, end: nat, r: nat) {
    exists m: nat :: k <= m < end && m < |data| && data[m] == r
  }

  lemma HalfStart(n: nat, rules: seq<Xrl>, pairs: seq<Pair>, starts: seq<nat>, data: seq<nat>, s: set<nat>,
      waiting: seq<nat>, b: nat)
    requires IndexOf(n, pairs, starts, data) && PairsOf(n, rules, pairs) && b < n
    requires Awaited(rules, s, waiting + [b])
    ensures Half(rules, s, waiting, b, data, starts[b], starts[b + 1])
  {
    forall r: nat | r < |rules| && rules[r].rhs != [] && Supported(rules[r], s) && rules[r].lhs !in s
      ensures (exists a :: a in waiting && Mentions(rules[r], a))
          || (Mentions(rules[r], b) && Coming(data, starts[b], starts[b + 1], r))
    {
      var a :| a in waiting + [b] && Mentions(rules[r], a);
      if a == b {
        assert Pair(b, r) in pairs && InRun(starts, data, b, r);
      }
    }
  }

  /** The rule just looked at could not be applied. */
  lemma HalfSkip(rules: seq<Xrl>, s: set<nat>, waiting: seq<nat>, b: nat, data: seq<nat>, k: nat, end: nat)
    requires Half(rules, s, waiting, b, data, k, end) && k < end <= |data| && data[k] < |rules|
    requires rules[data[k]].lhs in s || !Supported(rules[data[k]], s)
    ensures Half(rules, s, waiting, b, data, k + 1, end)
  {
    forall r: nat | r < |rules| && rules[r].rhs != [] && Supported(rules[r], s) && rules[r].lhs !in s
      ensures (exists a :: a in waiting && Mentions(rules[r], a))
          || (Mentions(rules[r], b) && Coming(data, k + 1, end, r))
    {
      if Coming(data, k, end, r) {
        var m: nat :| k <= m < end && m < |data| && data[m] == r;
        assert m != k;
      }
    }
  }

  /** The rule just looked at was applied: its left side goes on the stack. */
  lemma HalfApply(rules: seq<Xrl>, s: set<nat>, waiting: seq<nat>, b: nat, data: seq<nat>, k: nat, end: nat, lhs: nat)
    requires Half(rules, s, waiting, b, data, k, end) && k < end <= |data| && data[k] < |rules|
    requires lhs == rules[data[k]].lhs
    ensures Half(rules, s + {lhs}, waiting + [lhs], b, data, k + 1, end)
  {
    forall r: nat | r < |rules| && rules[r].rhs != [] && Supported(rules[r], s + {lhs}) && rules[r].lhs !in s + {lhs}
      ensures (exists a :: a in waiting + [lhs] && Mentions(rules[r], a))
          || (Mentions(rules[r], b) && Coming(data, k + 1, end, r))
    {
      if Supported(rules[r], s) {
        if a :| a in waiting && Mentions(rules[r], a) {
          assert a in waiting + [lhs];
        } else {
          var m: nat :| k <= m < end && m < |data| && data[m] == r;
          assert m != k;
        }
      } else {
        assert lhs in waiting + [lhs] && Mentions(rules[r], lhs);
      }
    }
  }

  /** Everything closed under the rules that holds the seed holds `s`, and `s` is itself closed provided the
      seed has the left sides of the empty rules: nothing ever brings those up. */
  ghost predicate LeastClosed(rules: seq<Xrl>, seed: set<nat>, s: set<nat>) {
    && seed <= s
    && (Closed(rules, s) <==> HasEmptyRules(rules, s))
    && Forced(rules, seed, s)
  }

  lemma NothingAwaited(n: nat, rules: seq<Xrl>, seed: set<nat>, s: set<nat>)
    requires RulesOk(n, rules)
    requires Awaited(rules, s, []) && seed <= s && Forced(rules, seed, s)
    ensures LeastClosed(rules, seed, s)
  {
  }

  lemma StillForced(rules: seq<Xrl>, seed: set<nat>, s: set<nat>, r: nat)
    requires r < |rules| && Supported(rules[r], s) && Forced(rules, seed, s)
    ensures Forced(rules, seed, s + {rules[r].lhs})
  {
  }

  /** Look a rule's needs up in the bits. */
  method IsSupported(rule: Xrl, bv: array<bool>) returns (ok: bool)
    requires RuleOk(bv.Length, rule)
    ensures ok == Supported(rule, Bits(bv))
  {
    for ix := 0 to |rule.rhs|
      invariant forall m | 0 <= m < ix :: rule.rhs[m] in Bits(bv)
    {
      assert rule.rhs[ix] in rule.rhs;
      if !bv[rule.rhs[ix]] {
        return false;
      }
    }
    return NeedsSeparator(rule) ==> bv[rule.separator];
  }

  /** No closed set that holds the seed leaves any of `s` out. */
  ghost predicate Forced(rules: seq<Xrl>, seed: set<nat>, s: set<nat>) {
    forall t | seed <= t && Closed(rules, t) :: s <= t
  }

  /** Put every symbol of the seed on the stack. */
  method StackBits(bv: array<bool>) returns (stack: array<nat>, height: nat)
    ensures fresh(stack) && stack.Length == bv.Length && height <= bv.Length
    ensures StackOk(Bits(bv), stack[..height]) && forall b | b in Bits(bv) :: b in stack[..height]
  {
    hide StackOk;
    stack, height := new nat[bv.Length], 0;
    Unwaited(Bits(bv));
    assert stack[..0] == [];
    for a := 0 to bv.Length
      invariant height <= a
      invariant forall b: nat :: b in stack[..height] <==> b < a && bv[b]
      invariant StackOk(Bits(bv), stack[..height])
    {
      if bv[a] {
        Stacked(Bits(bv), stack[..height], a);
        stack[height] := a;
        height := height + 1;
        assert stack[..height] == stack[..height - 1] + [a];
      }
    }
  }

  /** Close the bits under the rules, bottom up. */
  method RhsClosure(rules: seq<Xrl>, bv: array<bool>, starts: seq<nat>, data: seq<nat>, ghost pairs: seq<Pair>)
    requires RulesOk(bv.Length, rules) && PairsOf(bv.Length, rules, pairs) && IndexOf(bv.Length, pairs, starts, data)
    modifies bv
    ensures LeastClosed(rules, old(Bits(bv)), Bits(bv))
  {
    hide Supported, Half, Awaited, StackOk, Closed, LeastClosed, PairsOf, Mentions, Forced, RulesOk, RuleOk, IndexOf;
    var n := bv.Length;
    ghost var seed := Bits(bv);
    var stack, height := StackBits(bv);
    AwaitedStart(rules, seed, stack[..height]);
    assert Forced(rules, seed, seed) by { SeedForced(rules, seed); }
    while height > 0
      invariant height <= n && seed <= Bits(bv)
      invariant StackOk(Bits(bv), stack[..height]) && Awaited(rules, Bits(bv), stack[..height])
      invariant Forced(rules, seed, Bits(bv))
      decreases Below(n) - Bits(bv), height
    {
      ghost var before, height0 := Bits(bv), height;
      height := height - 1;
      var b := stack[height];
      assert stack[..height + 1] == stack[..height] + [b];
      Unstacked(before, stack[..height], b);
      HalfStart(n, rules, pairs, starts, data, before, stack[..height], b);
      RunBounds(n, pairs, starts, data, b);
      for k := starts[b] to starts[b + 1]
        invariant height <= n && before <= Bits(bv)
        invariant Bits(bv) == before ==> height < height0
        invariant StackOk(Bits(bv), stack[..height]) && Forced(rules, seed, Bits(bv))
        invariant Half(rules, Bits(bv), stack[..height], b, data, k, starts[b + 1])
      {
        RunRule(n, rules, pairs, starts, data, b, k);
        var r := data[k];
        var lhs := rules[r].lhs;
        ghost var s, waiting := Bits(bv), stack[..height];
        var ok := false;
        if !bv[lhs] {
          ok := IsSupported(rules[r], bv);
        }
        if ok {
          RoomLeft(n, s, waiting, lhs);
          HalfApply(rules, s, waiting, b, data, k, starts[b + 1], lhs);
          StillForced(rules, seed, s, r);
          NotWaiting(s, waiting, lhs);
          Stacked(s, waiting, lhs);
          bv[lhs] := true;
          stack[height] := lhs;
          height := height + 1;
          assert Bits(bv) == s + {lhs} && stack[..height] == waiting + [lhs];
        } else {
          HalfSkip(rules, s, waiting, b, data, k, starts[b + 1]);
        }
      }
      HalfDone(rules, Bits(bv), stack[..height], b, data, starts[b + 1]);
    }
    NothingAwaited(n, rules, seed, Bits(bv));
  }

  lemma SeedForced(rules: seq<Xrl>, seed: set<nat>)
    ensures Forced(rules, seed, seed)
  {
  }

  lemma RunBounds(n: nat, pairs: seq<Pair>, starts: seq<nat>, data: seq<nat>, b: nat)
    requires IndexOf(n, pairs, starts, data) && b < n
    ensures b + 1 < |starts| && starts[b] <= starts[b + 1] <= |data|
  {
  }

  lemma Stacked(s: set<nat>, waiting: seq<nat>, a: nat)
    requires StackOk(s, waiting) && a !in waiting
    ensures StackOk(s + {a}, waiting + [a])
    ensures a in s ==> StackOk(s, waiting + [a])
  {
  }

  lemma Unwaited(s: set<nat>)
    ensures StackOk(s, [])
  {
  }

  lemma NotWaiting(s: set<nat>, waiting: seq<nat>, a: nat)
    requires StackOk(s, waiting) && a !in s
    ensures a !in waiting
  {
  }

  lemma Unstacked(s: set<nat>, waiting: seq<nat>, b: nat)
    requires StackOk(s, waiting + [b])
    ensures StackOk(s, waiting) && b in s
  {
    var all := waiting + [b];
    assert all[|waiting|] == b;
    assert forall k | 0 <= k < |waiting| :: waiting[k] == all[k];
  }

  lemma RunRule(n: nat, rules: seq<Xrl>, pairs: seq<Pair>, starts: seq<nat>, data: seq<nat>, b: nat, k: nat)
    requires IndexOf(n, pairs, starts, data) && PairsOf(n, rules, pairs) && RulesOk(n, rules)
    requires b < n && starts[b] <= k < starts[b + 1]
    ensures k < |data| && data[k] < |rules| && RuleOk(n, rules[data[k]]) && rules[data[k]].lhs < n
  {
    assert InRun(starts, data, b, data[k]);
  }

  lemma HalfDone(rules: seq<Xrl>, s: set<nat>, waiting: seq<nat>, b: nat, data: seq<nat>, end: nat)
    requires Half(rules, s, waiting, b, data, end, end)
    ensures Awaited(rules, s, waiting)
  {
  }
}
