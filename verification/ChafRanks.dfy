/** What the ranks of the pieces mean: they put the null patterns of a rule in order. */
module ChafRanks {
  import opened Chaf
  import opened Rewriting
  import opened Sequences

  /** Two patterns agree on the factors before `f`, where the second is null and the first is not. */
  ghost predicate SplitAt(fs: seq<nat>, a: set<nat>, b: set<nat>, f: nat) {
    && f in fs && f !in a && f in b
    && forall g | g in fs && g < f :: g in a <==> g in b
  }

  /** At the first piece where the chains differ the first has the higher rank. */
  ghost predicate RanksAbove(c: seq<Irl>, d: seq<Irl>) {
    exists k :: 0 <= k < |c| && k < |d| && c[..k] == d[..k] && c[k].chafRank > d[k].chafRank
  }

  lemma AboveHere(c: seq<Irl>, d: seq<Irl>)
    requires c != [] && d != [] && c[0].chafRank > d[0].chafRank
    ensures RanksAbove(c, d)
  {
    assert c[..0] == d[..0];
  }

  lemma AboveLater(x: Irl, c: seq<Irl>, d: seq<Irl>)
    requires RanksAbove(c, d)
    ensures RanksAbove([x] + c, [x] + d)
  {
    var k :| 0 <= k < |c| && k < |d| && c[..k] == d[..k] && c[k].chafRank > d[k].chafRank;
    assert ([x] + c)[..k + 1] == [x] + c[..k] == ([x] + d)[..k + 1];
  }

  lemma {:induction false} ForRanks(rule: Rule, suffix: nat, lhs: Nsy, start: nat, fs: seq<nat>, v: nat, a: set<nat>,
      b: set<nat>, f: nat)
    requires RuleOk(rule) && start <= |rule.rhs| && fs != [] && FactorsOf(rule, fs, start)
    requires SplitAt(fs, a, b, f)
    ensures RanksAbove(ChainFor(rule, suffix, lhs, start, fs, v, a), ChainFor(rule, suffix, lhs, start, fs, v, b))
    decreases |fs|
  {
    var c, d := ChainFor(rule, suffix, lhs, start, fs, v, a), ChainFor(rule, suffix, lhs, start, fs, v, b);
    assert fs[0] in fs && fs[0] <= f;
    if |fs| >= 3 {
      NextFactorsOk(rule, suffix, start, fs);
      FirstFactors(rule, start, fs);
      assert fs[1] in fs && (f != fs[0] ==> f >= fs[1]);
      if f == fs[0] || (fs[1] < suffix && f == fs[1]) || (fs[1] >= suffix && ToSet(fs[1..]) <= b) {
        assert fs[1] >= suffix && f != fs[0] ==> f in ToSet(fs[1..]);
        AboveHere(c, d);
      } else {
        LaterRanks(rule, suffix, lhs, start, fs, v, a, b, f);
      }
    } else {
      AboveHere(c, d);
    }
  }

  /** A piece that is not the last, and the chain after it. */
  lemma LinkedStep(rule: Rule, suffix: nat, lhs: Nsy, start: nat, fs: seq<nat>, v: nat, a: set<nat>)
    returns (here: set<nat>)
    requires RuleOk(rule) && start <= |rule.rhs| && |fs| >= 3 && FactorsOf(rule, fs, start)
    requires fs[1] >= suffix ==> !(ToSet(fs[1..]) <= a)
    ensures var start', fs' := NextStart(suffix, fs), NextFactors(suffix, fs);
            && start <= start' <= |rule.rhs| && fs' != [] && FactorsOf(rule, fs', start')
            && here == (if fs[1] >= suffix then a * {fs[0]} else a * {fs[0], fs[1]})
            && ChainFor(rule, suffix, lhs, start, fs, v, a) ==
               [Linked(rule, lhs, start, start', here, v, RankOf(suffix, fs, a))]
               + ChainFor(rule, suffix, Virtual(v), start', fs', v + 1, a - here)
  {
    NextFactorsOk(rule, suffix, start, fs);
    FirstFactors(rule, start, fs);
    here := if fs[1] >= suffix then a * {fs[0]} else a * {fs[0], fs[1]};
  }

  /** The pieces agree here, so the difference is further on. */
  lemma {:induction false} LaterRanks(rule: Rule, suffix: nat, lhs: Nsy, start: nat, fs: seq<nat>, v: nat, a: set<nat>,
      b: set<nat>, f: nat)
    requires RuleOk(rule) && start <= |rule.rhs| && |fs| >= 3 && FactorsOf(rule, fs, start)
    requires SplitAt(fs, a, b, f) && f != fs[0] && (fs[1] < suffix ==> f != fs[1])
    requires fs[1] >= suffix ==> !(ToSet(fs[1..]) <= b)
    ensures RanksAbove(ChainFor(rule, suffix, lhs, start, fs, v, a), ChainFor(rule, suffix, lhs, start, fs, v, b))
    decreases |fs|, 0
  {
    assert fs[0] in fs && fs[1] in fs && (fs[0] < f && (fs[1] < suffix ==> fs[1] < f));
    SplitLater(rule, suffix, start, fs, a, b, f);
    var start', fs' := NextStart(suffix, fs), NextFactors(suffix, fs);
    var here := LinkedStep(rule, suffix, lhs, start, fs, v, a);
    var there := LinkedStep(rule, suffix, lhs, start, fs, v, b);
    hide ChainFor, FactorsOf, SplitAt, RanksAbove, Slice, NextStart, NextFactors, ToSet, RankOf;
    ForRanks(rule, suffix, Virtual(v), start', fs', v + 1, a - here, b - here, f);
    AboveLater(Linked(rule, lhs, start, start', here, v, RankOf(suffix, fs, a)),
               ChainFor(rule, suffix, Virtual(v), start', fs', v + 1, a - here),
               ChainFor(rule, suffix, Virtual(v), start', fs', v + 1, b - here));
  }

  lemma SplitLater(rule: Rule, suffix: nat, start: nat, fs: seq<nat>, a: set<nat>, b: set<nat>, f: nat)
    requires RuleOk(rule) && |fs| >= 3 && FactorsOf(rule, fs, start)
    requires SplitAt(fs, a, b, f) && fs[0] < f && (fs[1] < suffix ==> fs[1] < f)
    ensures var here := if fs[1] >= suffix then a * {fs[0]} else a * {fs[0], fs[1]};
            && here == (if fs[1] >= suffix then b * {fs[0]} else b * {fs[0], fs[1]})
            && SplitAt(NextFactors(suffix, fs), a - here, b - here, f)
    ensures RankOf(suffix, fs, a) == RankOf(suffix, fs, b)
    ensures fs[1] >= suffix ==> !(ToSet(fs[1..]) <= a)
  {
    FirstFactors(rule, start, fs);
    Members(fs);
    assert f in fs[1..] ==> f in ToSet(fs[1..]);
    hide FactorsOf, ToSet;
    var skip := if fs[1] >= suffix then {fs[0]} else {fs[0], fs[1]};
    forall g | g in skip ensures g in a <==> g in b {
      assert g in fs && g < f;
    }
    assert a * skip == b * skip;
    forall g | g in NextFactors(suffix, fs) ensures g in fs && g !in skip {
    }
  }

  lemma Members(fs: seq<nat>)
    requires |fs| >= 3
    ensures forall g :: g in fs <==> g == fs[0] || g in fs[1..]
    ensures forall g :: g in fs[1..] <==> g == fs[1] || g in fs[2..]
  {
    assert fs == [fs[0]] + fs[1..] && fs[1..] == [fs[1]] + fs[2..];
  }

  /** Two null patterns of a rule that differ: at the first piece where their chains differ, the higher rank belongs to
      the pattern that is not null at the first factor where they differ. */
  lemma RanksOrderPatterns(rule: Rule, suffix: nat, fs: seq<nat>, v: nat, a: set<nat>, b: set<nat>, f: nat,
      c: seq<Irl>, d: seq<Irl>)
    requires RuleOk(rule) && SuffixOf(rule, suffix) && FactorsOf(rule, fs, 0)
    requires Allowed(0, suffix, fs, a) && Allowed(0, suffix, fs, b) && SplitAt(fs, a, b, f)
    requires Chain(RuleIrls(rule, suffix, fs, v), Proper(rule.lhs), c, Slice(rule, 0, |rule.rhs|, a))
    requires Chain(RuleIrls(rule, suffix, fs, v), Proper(rule.lhs), d, Slice(rule, 0, |rule.rhs|, b))
    ensures exists k :: 0 <= k < |c| && k < |d| && c[..k] == d[..k] && c[k].chafRank > d[k].chafRank
  {
    assert fs != [];
    hide FactorsOf, SuffixOf, Chain, ChainFor, Slice, Allowed, SplitAt, Pieces;
    ChainIsUnique(rule, suffix, Proper(rule.lhs), fs, v, c, a);
    ChainIsUnique(rule, suffix, Proper(rule.lhs), fs, v, d, b);
    ForRanks(rule, suffix, Proper(rule.lhs), 0, fs, v, a, b, f);
  }

  /** Of two different patterns one is the higher. */
  lemma PatternsSplit(fs: seq<nat>, a: set<nat>, b: set<nat>) returns (f: nat)
    requires a <= ToSet(fs) && b <= ToSet(fs) && a != b
    ensures SplitAt(fs, a, b, f) || SplitAt(fs, b, a, f)
  {
    var differing := set g | g in fs && !(g in a <==> g in b);
    assert differing != {} by {
      if g :| g in a && g !in b {
        assert g in ToSet(fs) && g in differing;
      } else {
        var g :| g in b && g !in a;
        assert g in ToSet(fs) && g in differing;
      }
    }
    f := Least(differing);
    assert f in differing;
    forall g | g in fs && g < f ensures g in a <==> g in b {
      assert g !in differing;
    }
  }

  lemma {:induction false} Least(s: set<nat>) returns (f: nat)
    requires s != {}
    ensures f in s && forall g | g in s :: f <= g
    decreases |s|
  {
    f :| f in s;
    if s != {f} {
      var g := Least(s - {f});
      assert s == (s - {f}) + {f};
      f := if g < f then g else f;
    }
  }

  // ---------------------------------------------------------------- where the pieces start

  /** Each piece starts where the one before it ends. */
  ghost predicate Follow(c: seq<Irl>, start: nat)
    decreases |c|
  {
    c == [] || (c[0].realStart == start && Follow(c[1..], start + c[0].realCount))
  }

  lemma {:induction false} ForStarts(rule: Rule, suffix: nat, lhs: Nsy, start: nat, fs: seq<nat>, v: nat, a: set<nat>)
    requires RuleOk(rule) && start <= |rule.rhs| && fs != [] && FactorsOf(rule, fs, start)
    ensures Follow(ChainFor(rule, suffix, lhs, start, fs, v, a), start)
    ensures a == {} ==> forall irl | irl in ChainFor(rule, suffix, lhs, start, fs, v, a) :: irl.chafRank == 3
    decreases |fs|
  {
    if |fs| >= 3 && !(fs[1] >= suffix && ToSet(fs[1..]) <= a) {
      var here := LinkedStep(rule, suffix, lhs, start, fs, v, a);
      var start', fs' := NextStart(suffix, fs), NextFactors(suffix, fs);
      var x := Linked(rule, lhs, start, start', here, v, RankOf(suffix, fs, a));
      ForStarts(rule, suffix, Virtual(v), start', fs', v + 1, a - here);
      assert ([x] + ChainFor(rule, suffix, Virtual(v), start', fs', v + 1, a - here))[1..] ==
             ChainFor(rule, suffix, Virtual(v), start', fs', v + 1, a - here);
      assert a == {} ==> here == {} && a - here == {};
    } else if |fs| >= 3 {
      assert fs[1] in fs[1..] && fs[1] in ToSet(fs[1..]);
    }
  }

  /** The pieces of a chain follow each other from the start of the rule, and where nothing is null each has the
      highest rank there is. */
  lemma PiecesFollow(rule: Rule, suffix: nat, fs: seq<nat>, v: nat, a: set<nat>, c: seq<Irl>)
    requires RuleOk(rule) && SuffixOf(rule, suffix) && FactorsOf(rule, fs, 0) && Allowed(0, suffix, fs, a)
    requires Chain(RuleIrls(rule, suffix, fs, v), Proper(rule.lhs), c, Slice(rule, 0, |rule.rhs|, a))
    ensures Follow(c, 0)
    ensures a == {} ==> forall irl | irl in c :: irl.chafRank == 3
  {
    if fs == [] {
      CloneIsChain(rule, suffix, a);
    } else {
      ChainIsUnique(rule, suffix, Proper(rule.lhs), fs, v, c, a);
      ForStarts(rule, suffix, Proper(rule.lhs), 0, fs, v, a);
    }
  }
}
