/** CHAF: rules with nullable symbols are cut into pieces of at most two nullable factors, with the
    null and non-null versions of each factor written out. */
module Chaf {

  /** `Nulling` symbols derive nothing but the empty string; `ProperNullable` ones can also do otherwise. */
  datatype Kind = NonNullable | ProperNullable | Nulling

  /** Internal symbols: the non-null and the null version of an external symbol, and the virtual
      left sides that link the pieces of one rule. */
  datatype Nsy = Proper(xsy: nat) | Nulled(xsy: nat) | Virtual(id: nat)

  /** An internal rule. `chafRank` orders the versions of one piece; `realCount` counts the symbols of the
      original rule it covers, which begin at `realStart`. */
  datatype Irl = Irl(lhs: Nsy, rhs: seq<Nsy>, chafRank: nat, realStart: nat, realCount: nat)

  /** An external rule and the kinds of its right-hand symbols. */
  datatype Rule = Rule(lhs: nat, rhs: seq<nat>, kinds: seq<Kind>)

  predicate RuleOk(rule: Rule) {
    |rule.rhs| == |rule.kinds|
  }

  // ---------------------------------------------------------------- null patterns

  /** The symbol at a position, in its null version if `nulled`. Nulling symbols have only that one. */
  function At(rule: Rule, pos: nat, nulled: bool): Nsy
    requires RuleOk(rule) && pos < |rule.rhs|
  {
    if nulled || rule.kinds[pos] == Nulling then Nulled(rule.rhs[pos]) else Proper(rule.rhs[pos])
  }

  /** Positions `start` to `end` of the rule with those in `nulls` replaced by null versions. */
  function Slice(rule: Rule, start: nat, end: nat, nulls: set<nat>): (s: seq<Nsy>)
    requires RuleOk(rule) && start <= end <= |rule.rhs|
    ensures |s| == end - start
    ensures forall k | 0 <= k < |s| :: s[k] == At(rule, start + k, start + k in nulls)
  {
    seq(end - start, k requires 0 <= k < end - start => At(rule, start + k, start + k in nulls))
  }

  /** The positions of the proper nullable symbols, in order. */
  ghost predicate FactorsOf(rule: Rule, fs: seq<nat>, start: nat)
    requires RuleOk(rule)
  {
    && (forall k | 0 <= k < |fs| :: start <= fs[k] < |rule.rhs|)
    && (forall k, m | 0 <= k < m < |fs| :: fs[k] < fs[m])
    && (forall pos | start <= pos < |rule.rhs| :: pos in fs <==> rule.kinds[pos] == ProperNullable)
  }

  /** One past the last symbol that cannot be null; from there on everything can. */
  ghost predicate SuffixOf(rule: Rule, suffix: nat)
    requires RuleOk(rule)
  {
    && suffix <= |rule.rhs|
    && (suffix > 0 ==> rule.kinds[suffix - 1] == NonNullable)
    && (forall pos | suffix <= pos < |rule.rhs| :: rule.kinds[pos] != NonNullable)
  }

  ghost function ToSet(fs: seq<nat>): set<nat> {
    set f | f in fs
  }

  /** A null pattern for the rest of a rule. Nulling everything is not allowed when nothing is left standing. */
  ghost predicate Allowed(start: nat, suffix: nat, fs: seq<nat>, nulls: set<nat>) {
    nulls <= ToSet(fs) && (start < suffix || nulls != ToSet(fs))
  }

  /** Slices tell null patterns apart. */
  lemma SliceInjective(rule: Rule, fs: seq<nat>, start: nat, a: set<nat>, b: set<nat>)
    requires RuleOk(rule) && start <= |rule.rhs| && FactorsOf(rule, fs, start)
    requires a <= ToSet(fs) && b <= ToSet(fs)
    requires Slice(rule, start, |rule.rhs|, a) == Slice(rule, start, |rule.rhs|, b)
    ensures a == b
  {
    forall pos | pos in fs ensures pos in a <==> pos in b {
      var s, t := Slice(rule, start, |rule.rhs|, a), Slice(rule, start, |rule.rhs|, b);
      assert s[pos - start] == t[pos - start];
    }
  }

  lemma SliceJoin(rule: Rule, start: nat, mid: nat, end: nat, a: set<nat>, b: set<nat>, nulls: set<nat>)
    requires RuleOk(rule) && start <= mid <= end <= |rule.rhs|
    requires forall pos | start <= pos < end && rule.kinds[pos] != Nulling :: pos in nulls <==>
        if pos < mid then pos in a else pos in b
    ensures Slice(rule, start, end, nulls) == Slice(rule, start, mid, a) + Slice(rule, mid, end, b)
  {
  }

  // ---------------------------------------------------------------- the pieces

  ghost function From(pos: nat, end: nat): (s: set<nat>)
    ensures forall k: nat :: k in s <==> pos <= k < end
    decreases end - pos
  {
    if pos >= end then {} else {pos} + From(pos + 1, end)
  }

  /** A piece that covers positions `start` to `end` and hands the rest to virtual symbol `v`. */
  function Linked(rule: Rule, lhs: Nsy, start: nat, end: nat, nulls: set<nat>, v: nat, rank: nat): Irl
    requires RuleOk(rule) && start <= end <= |rule.rhs|
  {
    Irl(lhs, Slice(rule, start, end, nulls) + [Virtual(v)], rank, start, end - start)
  }

  /** A piece that covers the rest of the rule. */
  function Last(rule: Rule, lhs: Nsy, start: nat, nulls: set<nat>, rank: nat): Irl
    requires RuleOk(rule) && start <= |rule.rhs|
  {
    Irl(lhs, Slice(rule, start, |rule.rhs|, nulls), rank, start, |rule.rhs| - start)
  }

  /** With three or more factors left: the pieces for this step. Either the second factor begins a tail that
      can vanish, and the piece stops just before it, or it does not, and the piece takes both factors. */
  ghost function StepPieces(rule: Rule, suffix: nat, lhs: Nsy, start: nat, first: nat, second: nat, v: nat): seq<Irl>
    requires RuleOk(rule) && start <= first < second < |rule.rhs|
  {
    var n := |rule.rhs|;
    if second >= suffix then
      [Linked(rule, lhs, start, second, {}, v, 3),
       Last(rule, lhs, start, From(second, n), 2),
       Linked(rule, lhs, start, second, {first}, v, 1)]
      + if start < suffix then [Last(rule, lhs, start, {first} + From(second, n), 0)] else []
    else
      [Linked(rule, lhs, start, second + 1, {}, v, 3),
       Linked(rule, lhs, start, second + 1, {second}, v, 2),
       Linked(rule, lhs, start, second + 1, {first}, v, 1),
       Linked(rule, lhs, start, second + 1, {first, second}, v, 0)]
  }

  /** With one or two factors left: the final pieces. */
  ghost function FinalPieces(rule: Rule, suffix: nat, lhs: Nsy, start: nat, fs: seq<nat>): seq<Irl>
    requires RuleOk(rule) && start <= |rule.rhs| && 1 <= |fs| <= 2
  {
    if |fs| == 2 then
      [Last(rule, lhs, start, {}, 3),
       Last(rule, lhs, start, {fs[1]}, 2),
       Last(rule, lhs, start, {fs[0]}, 1)]
      + if start < suffix then [Last(rule, lhs, start, {fs[0], fs[1]}, 0)] else []
    else
      [Last(rule, lhs, start, {}, 3)]
      + if start < suffix then [Last(rule, lhs, start, {fs[0]}, 0)] else []
  }

  /** All the pieces from one point of the rule on. */
  ghost function Pieces(rule: Rule, suffix: nat, lhs: Nsy, start: nat, fs: seq<nat>, v: nat): seq<Irl>
    requires RuleOk(rule) && start <= |rule.rhs| && fs != [] && FactorsOf(rule, fs, start)
    decreases |fs|
  {
    if |fs| >= 3 then
      StepPieces(rule, suffix, lhs, start, fs[0], fs[1], v)
      + (if fs[1] >= suffix
         then Pieces(rule, suffix, Virtual(v), fs[1], fs[1..], v + 1)
         else Pieces(rule, suffix, Virtual(v), fs[1] + 1, fs[2..], v + 1))
    else FinalPieces(rule, suffix, lhs, start, fs)
  }

  /** Where the next piece starts and which factors it has. */
  ghost function NextStart(suffix: nat, fs: seq<nat>): nat
    requires |fs| >= 3
  {
    if fs[1] >= suffix then fs[1] else fs[1] + 1
  }

  ghost function NextFactors(suffix: nat, fs: seq<nat>): seq<nat>
    requires |fs| >= 3
  {
    if fs[1] >= suffix then fs[1..] else fs[2..]
  }

  lemma NextFactorsOk(rule: Rule, suffix: nat, start: nat, fs: seq<nat>)
    requires RuleOk(rule) && |fs| >= 3 && FactorsOf(rule, fs, start)
    ensures NextStart(suffix, fs) <= |rule.rhs| && NextFactors(suffix, fs) != []
    ensures FactorsOf(rule, NextFactors(suffix, fs), NextStart(suffix, fs))
    ensures ToSet(fs) == ToSet(NextFactors(suffix, fs)) + (if fs[1] >= suffix then {fs[0]} else {fs[0], fs[1]})
    ensures forall f | f in NextFactors(suffix, fs) :: f >= NextStart(suffix, fs)
  {
    var next, start' := NextFactors(suffix, fs), NextStart(suffix, fs);
    var skip := if fs[1] >= suffix then 1 else 2;
    assert next == fs[skip..];
    forall pos | start' <= pos < |rule.rhs| ensures pos in next <==> rule.kinds[pos] == ProperNullable {
      if pos in fs {
        var k :| 0 <= k < |fs| && fs[k] == pos;
        assert k >= skip ==> next[k - skip] == pos;
      }
    }
    forall f | f in fs ensures f in next || f == fs[0] || (skip == 2 && f == fs[1]) {
      var k :| 0 <= k < |fs| && fs[k] == f;
      assert k >= skip ==> next[k - skip] == f;
    }
  }

  /** How many virtual symbols the pieces need. */
  ghost function VirtualsUsed(suffix: nat, fs: seq<nat>): nat
    decreases |fs|
  {
    if |fs| >= 3 then 1 + VirtualsUsed(suffix, NextFactors(suffix, fs)) else 0
  }

  // ---------------------------------------------------------------- chains of pieces

  ghost predicate EndsVirtual(irl: Irl) {
    irl.rhs != [] && irl.rhs[|irl.rhs| - 1].Virtual?
  }

  /** `c` starts at `lhs` and follows the virtual symbols to a rule without one; `out` is what it spells. */
  ghost predicate Chain(irls: seq<Irl>, lhs: Nsy, c: seq<Irl>, out: seq<Nsy>)
    decreases |c|
  {
    && c != [] && c[0] in irls && c[0].lhs == lhs
    && if EndsVirtual(c[0])
       then var front := c[0].rhs[..|c[0].rhs| - 1];
            |out| >= |front| && out[..|front|] == front
            && Chain(irls, c[0].rhs[|front|], c[1..], out[|front|..])
       else |c| == 1 && out == c[0].rhs
  }

  ghost function RealCount(c: seq<Irl>): nat {
    if c == [] then 0 else c[0].realCount + RealCount(c[1..])
  }

  /** The chain for a null pattern. */
  ghost function ChainFor(rule: Rule, suffix: nat, lhs: Nsy, start: nat, fs: seq<nat>, v: nat,
      nulls: set<nat>): seq<Irl>
    requires RuleOk(rule) && start <= |rule.rhs| && fs != [] && FactorsOf(rule, fs, start)
    decreases |fs|
  {
    if |fs| >= 3 then
      NextFactorsOk(rule, suffix, start, fs);
      var first := fs[0];
      var start', fs' := NextStart(suffix, fs), NextFactors(suffix, fs);
      var here := if fs[1] >= suffix then nulls * {first} else nulls * {first, fs[1]};
      if fs[1] >= suffix && ToSet(fs') <= nulls then
        [Last(rule, lhs, start, here + From(fs[1], |rule.rhs|), if first in nulls then 0 else 2)]
      else
        [Linked(rule, lhs, start, start', here, v, RankOf(suffix, fs, nulls))]
        + ChainFor(rule, suffix, Virtual(v), start', fs', v + 1, nulls - here)
    else
      [Last(rule, lhs, start, nulls, RankOf(suffix, fs, nulls))]
  }

  ghost function RankOf(suffix: nat, fs: seq<nat>, nulls: set<nat>): nat
    requires fs != []
  {
    if |fs| == 1 then (if fs[0] in nulls then 0 else 3)
    else if |fs| >= 3 && fs[1] >= suffix then (if fs[0] in nulls then 1 else 3)
    else (if fs[0] in nulls then 0 else 2) + (if fs[1] in nulls then 0 else 1)
  }

  // ---------------------------------------------------------------- every allowed pattern has its chain

  lemma {:induction false} ChainWiden(step: seq<Irl>, rest: seq<Irl>, lhs: Nsy, c: seq<Irl>, out: seq<Nsy>)
    requires Chain(rest, lhs, c, out)
    ensures Chain(step + rest, lhs, c, out)
    decreases |c|
  {
    if EndsVirtual(c[0]) {
      var n := |c[0].rhs| - 1;
      ChainWiden(step, rest, c[0].rhs[n], c[1..], out[n..]);
    }
  }

  lemma ChainLink(irls: seq<Irl>, rule: Rule, lhs: Nsy, start: nat, end: nat, nulls: set<nat>, v: nat, rank: nat,
      c: seq<Irl>, out: seq<Nsy>)
    requires RuleOk(rule) && start <= end <= |rule.rhs|
    requires Linked(rule, lhs, start, end, nulls, v, rank) in irls && Chain(irls, Virtual(v), c, out)
    ensures Chain(irls, lhs, [Linked(rule, lhs, start, end, nulls, v, rank)] + c, Slice(rule, start, end, nulls) + out)
  {
    var irl := Linked(rule, lhs, start, end, nulls, v, rank);
    var whole, spelled := [irl] + c, Slice(rule, start, end, nulls) + out;
    assert whole[1..] == c && spelled[end - start..] == out;
    assert irl.rhs[..end - start] == Slice(rule, start, end, nulls) == spelled[..end - start];
  }

  lemma ChainEnd(irls: seq<Irl>, rule: Rule, lhs: Nsy, start: nat, nulls: set<nat>, rank: nat)
    requires RuleOk(rule) && start <= |rule.rhs|
    requires Last(rule, lhs, start, nulls, rank) in irls
    ensures Chain(irls, lhs, [Last(rule, lhs, start, nulls, rank)], Slice(rule, start, |rule.rhs|, nulls))
  {
  }

  /** The rest of the rule is never empty-handed: what follows a two-factor piece still holds a symbol that cannot be
      null. */
  lemma NextStartBelow(rule: Rule, suffix: nat, start: nat, fs: seq<nat>)
    requires RuleOk(rule) && |fs| >= 3 && FactorsOf(rule, fs, start) && SuffixOf(rule, suffix)
    ensures fs[1] < suffix ==> NextStart(suffix, fs) < suffix
  {
    assert fs[1] in fs;
  }

  /** When everything from the second factor on is null, the tail is written out in this very piece. */
  lemma TailSlice(rule: Rule, suffix: nat, start: nat, fs: seq<nat>, nulls: set<nat>)
    requires RuleOk(rule) && |fs| >= 3 && FactorsOf(rule, fs, start) && SuffixOf(rule, suffix) && start <= |rule.rhs|
    requires fs[1] >= suffix && nulls <= ToSet(fs) && ToSet(fs[1..]) <= nulls
    ensures Slice(rule, start, |rule.rhs|, nulls) ==
            Slice(rule, start, |rule.rhs|, nulls * {fs[0]} + From(fs[1], |rule.rhs|))
  {
    NextFactorsOk(rule, suffix, start, fs);
    forall pos | start <= pos < |rule.rhs| && rule.kinds[pos] == ProperNullable
      ensures pos in nulls <==> pos in nulls * {fs[0]} + From(fs[1], |rule.rhs|)
    {
      assert pos in fs;
      assert pos in ToSet(fs) && (pos == fs[0] || pos in fs[1..]);
    }
    SliceAgree(rule, start, |rule.rhs|, nulls, nulls * {fs[0]} + From(fs[1], |rule.rhs|), suffix, fs[1]);
  }

  lemma SliceAgree(rule: Rule, start: nat, end: nat, a: set<nat>, b: set<nat>, suffix: nat, tail: nat)
    requires RuleOk(rule) && start <= end <= |rule.rhs| && SuffixOf(rule, suffix) && suffix <= tail
    requires forall pos | start <= pos < end && rule.kinds[pos] == ProperNullable :: pos in a <==> pos in b
    requires forall pos | start <= pos < end && rule.kinds[pos] == NonNullable && pos < tail :: pos in a <==> pos in b
    ensures Slice(rule, start, end, a) == Slice(rule, start, end, b)
  {
    forall k | 0 <= k < end - start ensures Slice(rule, start, end, a)[k] == Slice(rule, start, end, b)[k] {
      assert At(rule, start + k, start + k in a) == At(rule, start + k, start + k in b);
    }
  }

  /** Cutting a pattern at the next start. */
  lemma CutSlice(rule: Rule, suffix: nat, start: nat, fs: seq<nat>, here: set<nat>, rest: set<nat>)
    requires RuleOk(rule) && |fs| >= 3 && FactorsOf(rule, fs, start)
    requires here <= (if fs[1] >= suffix then {fs[0]} else {fs[0], fs[1]}) && rest <= ToSet(NextFactors(suffix, fs))
    ensures start <= NextStart(suffix, fs) <= |rule.rhs|
    ensures Slice(rule, start, |rule.rhs|, here + rest)
         == Slice(rule, start, NextStart(suffix, fs), here) + Slice(rule, NextStart(suffix, fs), |rule.rhs|, rest)
  {
    NextFactorsOk(rule, suffix, start, fs);
    SliceJoin(rule, start, NextStart(suffix, fs), |rule.rhs|, here, rest, here + rest);
  }

  lemma PairPattern(nulls: set<nat>, f: nat, h: nat)
    ensures nulls * {f, h} == if f in nulls then (if h in nulls then {f, h} else {f})
                              else if h in nulls then {h} else {}
  {
  }

  lemma LinkIsStepPiece(rule: Rule, suffix: nat, lhs: Nsy, start: nat, fs: seq<nat>, v: nat, nulls: set<nat>)
    requires RuleOk(rule) && |fs| >= 3 && FactorsOf(rule, fs, start) && start <= NextStart(suffix, fs) <= |rule.rhs|
    ensures var here := if fs[1] >= suffix then nulls * {fs[0]} else nulls * {fs[0], fs[1]};
            Linked(rule, lhs, start, NextStart(suffix, fs), here, v, RankOf(suffix, fs, nulls))
              in StepPieces(rule, suffix, lhs, start, fs[0], fs[1], v)
  {
    var pieces := StepPieces(rule, suffix, lhs, start, fs[0], fs[1], v);
    if fs[1] >= suffix {
      assert nulls * {fs[0]} == if fs[0] in nulls then {fs[0]} else {};
      assert pieces[0] in pieces && pieces[2] in pieces;
    } else {
      var here := nulls * {fs[0], fs[1]};
      PairPattern(nulls, fs[0], fs[1]);
      assert pieces[0] in pieces && pieces[1] in pieces && pieces[2] in pieces && pieces[3] in pieces;
    }
  }

  lemma TailIsStepPiece(rule: Rule, suffix: nat, lhs: Nsy, start: nat, fs: seq<nat>, v: nat, nulls: set<nat>)
    requires RuleOk(rule) && |fs| >= 3 && FactorsOf(rule, fs, start) && start <= |rule.rhs|
    requires fs[1] >= suffix && (fs[0] in nulls ==> start < suffix)
    ensures Last(rule, lhs, start, nulls * {fs[0]} + From(fs[1], |rule.rhs|), if fs[0] in nulls then 0 else 2)
              in StepPieces(rule, suffix, lhs, start, fs[0], fs[1], v)
  {
    var pieces := StepPieces(rule, suffix, lhs, start, fs[0], fs[1], v);
    assert nulls * {fs[0]} == if fs[0] in nulls then {fs[0]} else {};
    assert {} + From(fs[1], |rule.rhs|) == From(fs[1], |rule.rhs|);
    assert pieces[1] in pieces && (start < suffix ==> pieces[3] in pieces);
  }

  lemma FinalPiece(rule: Rule, suffix: nat, lhs: Nsy, start: nat, fs: seq<nat>, nulls: set<nat>)
    requires RuleOk(rule) && start <= |rule.rhs| && 1 <= |fs| <= 2 && FactorsOf(rule, fs, start)
    requires Allowed(start, suffix, fs, nulls)
    ensures Last(rule, lhs, start, nulls, RankOf(suffix, fs, nulls)) in FinalPieces(rule, suffix, lhs, start, fs)
  {
    var pieces := FinalPieces(rule, suffix, lhs, start, fs);
    assert fs[0] in ToSet(fs);
    if |fs| == 2 {
      assert fs[1] in ToSet(fs);
      assert ToSet(fs) == {fs[0], fs[1]};
      PairPattern(nulls, fs[0], fs[1]);
      assert nulls == nulls * {fs[0], fs[1]};
      assert pieces[0] in pieces && pieces[1] in pieces && pieces[2] in pieces
          && (start < suffix ==> pieces[3] in pieces);
    } else {
      assert ToSet(fs) == {fs[0]};
      assert nulls == if fs[0] in nulls then {fs[0]} else {};
      assert pieces[0] in pieces && (start < suffix ==> pieces[1] in pieces);
    }
  }

  lemma LinkedSpells(rule: Rule, suffix: nat, lhs: Nsy, start: nat, fs: seq<nat>, v: nat, nulls: set<nat>,
      here: set<nat>, tail: seq<Irl>)
    requires RuleOk(rule) && |fs| >= 3 && FactorsOf(rule, fs, start) && start <= |rule.rhs|
    requires NextStart(suffix, fs) <= |rule.rhs| && NextFactors(suffix, fs) != []
    requires FactorsOf(rule, NextFactors(suffix, fs), NextStart(suffix, fs))
    requires nulls <= ToSet(fs)
    requires here == if fs[1] >= suffix then nulls * {fs[0]} else nulls * {fs[0], fs[1]}
    requires Chain(Pieces(rule, suffix, Virtual(v), NextStart(suffix, fs), NextFactors(suffix, fs), v + 1), Virtual(v),
                   tail, Slice(rule, NextStart(suffix, fs), |rule.rhs|, nulls - here))
    requires RealCount(tail) == |rule.rhs| - NextStart(suffix, fs)
    ensures start <= NextStart(suffix, fs)
    ensures var c := [Linked(rule, lhs, start, NextStart(suffix, fs), here, v, RankOf(suffix, fs, nulls))] + tail;
            && Chain(Pieces(rule, suffix, lhs, start, fs, v), lhs, c, Slice(rule, start, |rule.rhs|, nulls))
            && RealCount(c) == |rule.rhs| - start
  {
    var irls := Pieces(rule, suffix, lhs, start, fs, v);
    var start', rank := NextStart(suffix, fs), RankOf(suffix, fs, nulls);
    var out := Slice(rule, start', |rule.rhs|, nulls - here);
    FirstFactors(rule, start, fs);
    RestPattern(suffix, fs, nulls, here);
    StepThenRest(rule, suffix, lhs, start, fs, v);
    LinkIsStepPiece(rule, suffix, lhs, start, fs, v, nulls);
    hide FactorsOf, StepPieces, RankOf, ToSet, Slice, Pieces, Chain, RealCount, NextFactors;
    CutSlice(rule, suffix, start, fs, here, nulls - here);
    assert here + (nulls - here) == nulls;
    ChainWiden(StepPieces(rule, suffix, lhs, start, fs[0], fs[1], v),
               Pieces(rule, suffix, Virtual(v), start', NextFactors(suffix, fs), v + 1), Virtual(v), tail, out);
    ChainLink(irls, rule, lhs, start, start', here, v, rank, tail, out);
    RealCountCons(Linked(rule, lhs, start, start', here, v, rank), tail);
  }

  lemma RestPattern(suffix: nat, fs: seq<nat>, nulls: set<nat>, here: set<nat>)
    requires |fs| >= 3 && nulls <= ToSet(fs)
    requires here == if fs[1] >= suffix then nulls * {fs[0]} else nulls * {fs[0], fs[1]}
    ensures nulls - here <= ToSet(NextFactors(suffix, fs))
    ensures here <= (if fs[1] >= suffix then {fs[0]} else {fs[0], fs[1]}) && here <= nulls
  {
    assert fs == [fs[0]] + fs[1..] && fs[1..] == [fs[1]] + fs[2..];
  }

  lemma RealCountCons(irl: Irl, tail: seq<Irl>)
    ensures RealCount([irl] + tail) == irl.realCount + RealCount(tail)
  {
    assert ([irl] + tail)[1..] == tail;
  }

  /** Every allowed null pattern is spelled by its chain, which covers the rest of the rule exactly once. */
  lemma {:induction false} ChainForSpells(rule: Rule, suffix: nat, lhs: Nsy, start: nat, fs: seq<nat>, v: nat,
      nulls: set<nat>)
    requires RuleOk(rule) && SuffixOf(rule, suffix) && start <= |rule.rhs| && fs != [] && FactorsOf(rule, fs, start)
    requires Allowed(start, suffix, fs, nulls)
    ensures Chain(Pieces(rule, suffix, lhs, start, fs, v), lhs, ChainFor(rule, suffix, lhs, start, fs, v, nulls),
                  Slice(rule, start, |rule.rhs|, nulls))
    ensures RealCount(ChainFor(rule, suffix, lhs, start, fs, v, nulls)) == |rule.rhs| - start
    decreases |fs|
  {
    hide FactorsOf, SuffixOf, Chain, StepPieces, FinalPieces, Slice, RealCount;
    var irls := Pieces(rule, suffix, lhs, start, fs, v);
    if |fs| >= 3 {
      NextFactorsOk(rule, suffix, start, fs);
      NextStartBelow(rule, suffix, start, fs);
      FirstFactors(rule, start, fs);
      StepThenRest(rule, suffix, lhs, start, fs, v);
      var start', fs' := NextStart(suffix, fs), NextFactors(suffix, fs);
      var here := if fs[1] >= suffix then nulls * {fs[0]} else nulls * {fs[0], fs[1]};
      if fs[1] >= suffix && ToSet(fs') <= nulls {
        assert fs[0] in nulls ==> nulls == ToSet(fs);
        TailIsStepPiece(rule, suffix, lhs, start, fs, v, nulls);
        TailSlice(rule, suffix, start, fs, nulls);
        ChainEnd(irls, rule, lhs, start, here + From(fs[1], |rule.rhs|), if fs[0] in nulls then 0 else 2);
        LastCount(rule, lhs, start, here + From(fs[1], |rule.rhs|), if fs[0] in nulls then 0 else 2);
      } else {
        RestPattern(suffix, fs, nulls, here);
        ChainForSpells(rule, suffix, Virtual(v), start', fs', v + 1, nulls - here);
        LinkedSpells(rule, suffix, lhs, start, fs, v, nulls, here,
                     ChainFor(rule, suffix, Virtual(v), start', fs', v + 1, nulls - here));
      }
    } else {
      FinalAll(rule, suffix, lhs, start, fs, v);
      FinalPiece(rule, suffix, lhs, start, fs, nulls);
      ChainEnd(irls, rule, lhs, start, nulls, RankOf(suffix, fs, nulls));
      LastCount(rule, lhs, start, nulls, RankOf(suffix, fs, nulls));
    }
  }

  lemma LastCount(rule: Rule, lhs: Nsy, start: nat, nulls: set<nat>, rank: nat)
    requires RuleOk(rule) && start <= |rule.rhs|
    ensures RealCount([Last(rule, lhs, start, nulls, rank)]) == |rule.rhs| - start
  {
  }

  // ---------------------------------------------------------------- and every chain spells an allowed pattern

  /** The symbol was made before virtual symbol `v`. */
  ghost predicate Before(lhs: Nsy, v: nat) {
    lhs.Virtual? ==> lhs.id < v
  }

  lemma StepPieceForm(rule: Rule, suffix: nat, lhs: Nsy, start: nat, fs: seq<nat>, v: nat, irl: Irl)
    returns (m: set<nat>, linked: bool)
    requires RuleOk(rule) && |fs| >= 3 && FactorsOf(rule, fs, start) && start <= NextStart(suffix, fs) <= |rule.rhs|
    requires irl in StepPieces(rule, suffix, lhs, start, fs[0], fs[1], v)
    ensures m <= if fs[1] >= suffix then {fs[0]} else {fs[0], fs[1]}
    ensures linked ==> irl == Linked(rule, lhs, start, NextStart(suffix, fs), m, v, RankOf(suffix, fs, m))
    ensures !linked ==>
              && fs[1] >= suffix && (fs[0] in m ==> start < suffix)
              && irl == Last(rule, lhs, start, m + From(fs[1], |rule.rhs|), if fs[0] in m then 0 else 2)
  {
    var pieces := StepPieces(rule, suffix, lhs, start, fs[0], fs[1], v);
    var k :| 0 <= k < |pieces| && pieces[k] == irl;
    if fs[1] >= suffix {
      m := if k < 2 then {} else {fs[0]};
      linked := k == 0 || k == 2;
      assert {} + From(fs[1], |rule.rhs|) == From(fs[1], |rule.rhs|);
    } else {
      m := [{}, {fs[1]}, {fs[0]}, {fs[0], fs[1]}][k];
      linked := true;
    }
  }

  lemma FinalPieceForm(rule: Rule, suffix: nat, lhs: Nsy, start: nat, fs: seq<nat>, irl: Irl) returns (m: set<nat>)
    requires RuleOk(rule) && start <= |rule.rhs| && 1 <= |fs| <= 2 && FactorsOf(rule, fs, start)
    requires irl in FinalPieces(rule, suffix, lhs, start, fs)
    ensures Allowed(start, suffix, fs, m) && irl == Last(rule, lhs, start, m, RankOf(suffix, fs, m))
  {
    var pieces := FinalPieces(rule, suffix, lhs, start, fs);
    var k :| 0 <= k < |pieces| && pieces[k] == irl;
    assert fs[0] in ToSet(fs);
    if |fs| == 2 {
      assert fs[1] in ToSet(fs);
      m := [{}, {fs[1]}, {fs[0]}, {fs[0], fs[1]}][k];
    } else {
      m := [{}, {fs[0]}][k];
    }
  }

  ghost predicate IdsOk(irl: Irl, lhs: Nsy, v: nat) {
    && (irl.lhs == lhs || (irl.lhs.Virtual? && irl.lhs.id >= v))
    && (EndsVirtual(irl) ==> irl.rhs[|irl.rhs| - 1].id >= v)
  }

  /** Pieces made from virtual symbol `v` on use only `lhs` and later virtual symbols. */
  lemma {:induction false} PiecesIds(rule: Rule, suffix: nat, lhs: Nsy, start: nat, fs: seq<nat>, v: nat)
    requires RuleOk(rule) && start <= |rule.rhs| && fs != [] && FactorsOf(rule, fs, start)
    ensures forall irl | irl in Pieces(rule, suffix, lhs, start, fs, v) :: IdsOk(irl, lhs, v)
    decreases |fs|
  {
    hide FactorsOf, IdsOk, StepPieces, FinalPieces;
    if |fs| >= 3 {
      NextFactorsOk(rule, suffix, start, fs);
      FirstFactors(rule, start, fs);
      PiecesIds(rule, suffix, Virtual(v), NextStart(suffix, fs), NextFactors(suffix, fs), v + 1);
      forall irl | irl in StepPieces(rule, suffix, lhs, start, fs[0], fs[1], v) ensures IdsOk(irl, lhs, v) {
        var m, linked := StepPieceForm(rule, suffix, lhs, start, fs, v, irl);
        PieceIds(rule, lhs, start, NextStart(suffix, fs), m, v, RankOf(suffix, fs, m));
        PieceIds(rule, lhs, start, start, m + From(fs[1], |rule.rhs|), v, if fs[0] in m then 0 else 2);
      }
      forall irl | IdsOk(irl, Virtual(v), v + 1) ensures IdsOk(irl, lhs, v) { LaterIds(irl, lhs, v); }
    } else {
      forall irl | irl in FinalPieces(rule, suffix, lhs, start, fs) ensures IdsOk(irl, lhs, v) {
        var m := FinalPieceForm(rule, suffix, lhs, start, fs, irl);
        PieceIds(rule, lhs, start, start, m, v, RankOf(suffix, fs, m));
      }
    }
  }

  /** The virtual symbols of a rule are the next ones in order, and only the last symbol of a piece is one. */
  ghost predicate IdsWithin(irl: Irl, lhs: Nsy, v: nat, end: nat) {
    && (irl.lhs == lhs || (irl.lhs.Virtual? && v <= irl.lhs.id < end))
    && (forall k | 0 <= k < |irl.rhs| && irl.rhs[k].Virtual? :: k == |irl.rhs| - 1 && v <= irl.rhs[k].id < end)
  }

  lemma {:induction false} PiecesWithin(rule: Rule, suffix: nat, lhs: Nsy, start: nat, fs: seq<nat>, v: nat)
    requires RuleOk(rule) && start <= |rule.rhs| && fs != [] && FactorsOf(rule, fs, start)
    ensures forall irl | irl in Pieces(rule, suffix, lhs, start, fs, v) ::
        IdsWithin(irl, lhs, v, v + VirtualsUsed(suffix, fs))
    decreases |fs|
  {
    hide FactorsOf, IdsWithin, StepPieces, FinalPieces;
    var end := v + VirtualsUsed(suffix, fs);
    if |fs| >= 3 {
      NextFactorsOk(rule, suffix, start, fs);
      FirstFactors(rule, start, fs);
      PiecesWithin(rule, suffix, Virtual(v), NextStart(suffix, fs), NextFactors(suffix, fs), v + 1);
      forall irl | irl in StepPieces(rule, suffix, lhs, start, fs[0], fs[1], v) ensures IdsWithin(irl, lhs, v, end) {
        var m, linked := StepPieceForm(rule, suffix, lhs, start, fs, v, irl);
        PieceWithin(rule, lhs, start, NextStart(suffix, fs), m, v, RankOf(suffix, fs, m), end);
        LastWithin(rule, lhs, start, m + From(fs[1], |rule.rhs|), v, if fs[0] in m then 0 else 2, end);
      }
      forall irl | irl in Pieces(rule, suffix, Virtual(v), NextStart(suffix, fs), NextFactors(suffix, fs), v + 1)
          ensures IdsWithin(irl, lhs, v, end) { LaterWithin(irl, lhs, v, end); }
    } else {
      forall irl | irl in FinalPieces(rule, suffix, lhs, start, fs) ensures IdsWithin(irl, lhs, v, end) {
        var m := FinalPieceForm(rule, suffix, lhs, start, fs, irl);
        LastWithin(rule, lhs, start, m, v, RankOf(suffix, fs, m), end);
      }
    }
  }

  lemma PieceWithin(rule: Rule, lhs: Nsy, start: nat, end: nat, nulls: set<nat>, v: nat, rank: nat, top: nat)
    requires RuleOk(rule) && start <= end <= |rule.rhs| && v < top
    ensures IdsWithin(Linked(rule, lhs, start, end, nulls, v, rank), lhs, v, top)
  {
  }

  lemma LastWithin(rule: Rule, lhs: Nsy, start: nat, nulls: set<nat>, v: nat, rank: nat, top: nat)
    requires RuleOk(rule) && start <= |rule.rhs|
    ensures IdsWithin(Last(rule, lhs, start, nulls, rank), lhs, v, top)
  {
  }

  lemma LaterWithin(irl: Irl, lhs: Nsy, v: nat, end: nat)
    requires IdsWithin(irl, Virtual(v), v + 1, end) && v < end
    ensures IdsWithin(irl, lhs, v, end)
  {
  }

  lemma FirstFactors(rule: Rule, start: nat, fs: seq<nat>)
    requires RuleOk(rule) && |fs| >= 3 && FactorsOf(rule, fs, start)
    ensures start <= fs[0] < fs[1] < |rule.rhs|
    ensures fs[0] !in fs[1..] && fs[0] !in fs[2..] && fs[1] !in fs[2..]
    ensures ToSet(fs) == {fs[0]} + ToSet(fs[1..]) == {fs[0], fs[1]} + ToSet(fs[2..])
  {
    assert fs == [fs[0]] + fs[1..] && fs[1..] == [fs[1]] + fs[2..];
  }

  lemma PieceIds(rule: Rule, lhs: Nsy, start: nat, end: nat, nulls: set<nat>, v: nat, rank: nat)
    requires RuleOk(rule) && start <= end <= |rule.rhs|
    ensures IdsOk(Linked(rule, lhs, start, end, nulls, v, rank), lhs, v)
    ensures IdsOk(Last(rule, lhs, start, nulls, rank), lhs, v) && !EndsVirtual(Last(rule, lhs, start, nulls, rank))
  {
  }

  lemma LaterIds(irl: Irl, lhs: Nsy, v: nat)
    requires IdsOk(irl, Virtual(v), v + 1)
    ensures IdsOk(irl, lhs, v) && (EndsVirtual(irl) ==> irl.rhs[|irl.rhs| - 1].id > v) && irl.lhs.Virtual?
        && irl.lhs.id >= v
  {
  }

  lemma {:induction false} ChainDrop(step: seq<Irl>, rest: seq<Irl>, lhs0: Nsy, w: Nsy, c: seq<Irl>, out: seq<Nsy>)
    requires forall irl | irl in step :: irl.lhs == lhs0
    requires forall irl | irl in rest :: EndsVirtual(irl) ==> irl.rhs[|irl.rhs| - 1] != lhs0
    requires w != lhs0 && Chain(step + rest, w, c, out)
    ensures Chain(rest, w, c, out)
    decreases |c|
  {
    assert c[0] in rest;
    if EndsVirtual(c[0]) {
      var n := |c[0].rhs| - 1;
      ChainDrop(step, rest, lhs0, c[0].rhs[n], c[1..], out[n..]);
    }
  }

  lemma JoinedPattern(rule: Rule, suffix: nat, lhs: Nsy, start: nat, fs: seq<nat>, v: nat, m: set<nat>, rest: set<nat>)
    requires RuleOk(rule) && SuffixOf(rule, suffix) && |fs| >= 3 && FactorsOf(rule, fs, start) && start <= |rule.rhs|
    requires m <= if fs[1] >= suffix then {fs[0]} else {fs[0], fs[1]}
    requires Allowed(NextStart(suffix, fs), suffix, NextFactors(suffix, fs), rest)
    requires NextStart(suffix, fs) <= |rule.rhs| && NextFactors(suffix, fs) != []
    requires FactorsOf(rule, NextFactors(suffix, fs), NextStart(suffix, fs))
    ensures start <= NextStart(suffix, fs)
    ensures Allowed(start, suffix, fs, m + rest)
    ensures ChainFor(rule, suffix, lhs, start, fs, v, m + rest)
         == [Linked(rule, lhs, start, NextStart(suffix, fs), m, v, RankOf(suffix, fs, m))]
            + ChainFor(rule, suffix, Virtual(v), NextStart(suffix, fs), NextFactors(suffix, fs), v + 1, rest)
  {
    hide FactorsOf, SuffixOf, Slice, StepPieces, Pieces;
    FirstFactors(rule, start, fs);
    JoinedAllowed(rule, suffix, start, fs, m, rest);
  }

  lemma JoinedAllowed(rule: Rule, suffix: nat, start: nat, fs: seq<nat>, m: set<nat>, rest: set<nat>)
    requires RuleOk(rule) && |fs| >= 3 && FactorsOf(rule, fs, start)
    requires m <= if fs[1] >= suffix then {fs[0]} else {fs[0], fs[1]}
    requires Allowed(NextStart(suffix, fs), suffix, NextFactors(suffix, fs), rest)
    ensures Allowed(start, suffix, fs, m + rest)
    ensures var here := if fs[1] >= suffix then (m + rest) * {fs[0]} else (m + rest) * {fs[0], fs[1]};
            here == m && (m + rest) - here == rest
    ensures fs[1] >= suffix ==> !(ToSet(fs[1..]) <= m + rest)
    ensures RankOf(suffix, fs, m + rest) == RankOf(suffix, fs, m)
  {
    FirstFactors(rule, start, fs);
    hide FactorsOf;
    assert fs[0] !in rest && (fs[1] < suffix ==> fs[1] !in rest);
    if fs[1] >= suffix {
      var f :| f in ToSet(fs[1..]) && f !in rest;
      assert f != fs[0] && f !in m + rest && f in ToSet(fs);
    }
  }

  /** The converse: whatever a chain spells is an allowed null pattern, and the chain is the one for it. */
  lemma {:induction false} ChainSpellsPattern(rule: Rule, suffix: nat, lhs: Nsy, start: nat, fs: seq<nat>, v: nat,
      c: seq<Irl>, out: seq<Nsy>)
    returns (nulls: set<nat>)
    requires RuleOk(rule) && SuffixOf(rule, suffix) && start <= |rule.rhs| && fs != [] && FactorsOf(rule, fs, start)
    requires Before(lhs, v) && Chain(Pieces(rule, suffix, lhs, start, fs, v), lhs, c, out)
    ensures Allowed(start, suffix, fs, nulls)
    ensures out == Slice(rule, start, |rule.rhs|, nulls)
    ensures c == ChainFor(rule, suffix, lhs, start, fs, v, nulls)
    decreases |fs|
  {
    hide FactorsOf, SuffixOf, StepPieces, FinalPieces, Pieces, Chain, ChainFor, Slice, Allowed, RankOf;
    ChainHead(Pieces(rule, suffix, lhs, start, fs, v), lhs, c, out);
    if |fs| >= 3 {
      NextFactorsOk(rule, suffix, start, fs);
      FirstFactors(rule, start, fs);
      HeadIsStepPiece(rule, suffix, lhs, start, fs, v, c[0]);
      var m, linked := StepPieceForm(rule, suffix, lhs, start, fs, v, c[0]);
      if linked {
        var n := NextStart(suffix, fs) - start;
        TailOfChain(rule, suffix, lhs, start, fs, v, m, RankOf(suffix, fs, m), c, out);
        var rest := ChainSpellsPattern(rule, suffix, Virtual(v), NextStart(suffix, fs), NextFactors(suffix, fs), v + 1,
            c[1..], out[n..]);
        nulls := m + rest;
        JoinLinked(rule, suffix, lhs, start, fs, v, m, rest, c, out);
      } else {
        nulls := m + ToSet(NextFactors(suffix, fs));
        PieceIds(rule, lhs, start, start, m + From(fs[1], |rule.rhs|), v, if fs[0] in m then 0 else 2);
        LastIsTail(rule, suffix, lhs, start, fs, v, m, nulls);
        TailSlice(rule, suffix, start, fs, nulls);
      }
    } else {
      FinalAll(rule, suffix, lhs, start, fs, v);
      nulls := FinalPieceForm(rule, suffix, lhs, start, fs, c[0]);
      PieceIds(rule, lhs, start, start, nulls, v, RankOf(suffix, fs, nulls));
      FinalChain(rule, suffix, lhs, start, fs, v, nulls);
    }
  }

  lemma ChainHead(irls: seq<Irl>, lhs: Nsy, c: seq<Irl>, out: seq<Nsy>)
    requires Chain(irls, lhs, c, out)
    ensures c != [] && c[0] in irls && c[0].lhs == lhs && (!EndsVirtual(c[0]) ==> c == [c[0]] && out == c[0].rhs)
  {
  }

  lemma FinalAll(rule: Rule, suffix: nat, lhs: Nsy, start: nat, fs: seq<nat>, v: nat)
    requires RuleOk(rule) && start <= |rule.rhs| && 1 <= |fs| <= 2 && FactorsOf(rule, fs, start)
    ensures Pieces(rule, suffix, lhs, start, fs, v) == FinalPieces(rule, suffix, lhs, start, fs)
  {
  }

  lemma FinalChain(rule: Rule, suffix: nat, lhs: Nsy, start: nat, fs: seq<nat>, v: nat, nulls: set<nat>)
    requires RuleOk(rule) && start <= |rule.rhs| && 1 <= |fs| <= 2 && FactorsOf(rule, fs, start)
    ensures ChainFor(rule, suffix, lhs, start, fs, v, nulls) ==
            [Last(rule, lhs, start, nulls, RankOf(suffix, fs, nulls))]
  {
  }

  /** A linked piece and what the rest of its chain spells. */
  lemma JoinLinked(rule: Rule, suffix: nat, lhs: Nsy, start: nat, fs: seq<nat>, v: nat, m: set<nat>, rest: set<nat>,
      c: seq<Irl>, out: seq<Nsy>)
    requires RuleOk(rule) && SuffixOf(rule, suffix) && |fs| >= 3 && FactorsOf(rule, fs, start)
    requires start <= NextStart(suffix, fs) <= |rule.rhs| && NextFactors(suffix, fs) != []
    requires FactorsOf(rule, NextFactors(suffix, fs), NextStart(suffix, fs))
    requires m <= if fs[1] >= suffix then {fs[0]} else {fs[0], fs[1]}
    requires Allowed(NextStart(suffix, fs), suffix, NextFactors(suffix, fs), rest)
    requires c != [] && c[0] == Linked(rule, lhs, start, NextStart(suffix, fs), m, v, RankOf(suffix, fs, m))
    requires c[1..] == ChainFor(rule, suffix, Virtual(v), NextStart(suffix, fs), NextFactors(suffix, fs), v + 1, rest)
    requires var n := NextStart(suffix, fs) - start;
             && |out| >= n && out[..n] == Slice(rule, start, NextStart(suffix, fs), m)
             && out[n..] == Slice(rule, NextStart(suffix, fs), |rule.rhs|, rest)
    ensures Allowed(start, suffix, fs, m + rest)
    ensures out == Slice(rule, start, |rule.rhs|, m + rest)
    ensures c == ChainFor(rule, suffix, lhs, start, fs, v, m + rest)
  {
    FirstFactors(rule, start, fs);
    hide FactorsOf, SuffixOf, Slice, ChainFor, Allowed, RankOf;
    JoinedPattern(rule, suffix, lhs, start, fs, v, m, rest);
    ToSetNext(suffix, fs, rest, NextStart(suffix, fs));
    CutSlice(rule, suffix, start, fs, m, rest);
    var n := NextStart(suffix, fs) - start;
    assert out == out[..n] + out[n..] && c == [c[0]] + c[1..];
  }

  lemma ToSetNext(suffix: nat, fs: seq<nat>, rest: set<nat>, start: nat)
    requires |fs| >= 3 && Allowed(start, suffix, NextFactors(suffix, fs), rest)
    ensures rest <= ToSet(NextFactors(suffix, fs))
  {
  }

  lemma HeadIsStepPiece(rule: Rule, suffix: nat, lhs: Nsy, start: nat, fs: seq<nat>, v: nat, irl: Irl)
    requires RuleOk(rule) && start <= |rule.rhs| && |fs| >= 3 && FactorsOf(rule, fs, start) && Before(lhs, v)
    requires irl in Pieces(rule, suffix, lhs, start, fs, v) && irl.lhs == lhs
    ensures start <= fs[0] < fs[1] < |rule.rhs| && irl in StepPieces(rule, suffix, lhs, start, fs[0], fs[1], v)
  {
    hide FactorsOf, StepPieces;
    FirstFactors(rule, start, fs);
    NextFactorsOk(rule, suffix, start, fs);
    PiecesIds(rule, suffix, Virtual(v), NextStart(suffix, fs), NextFactors(suffix, fs), v + 1);
  }

  lemma TailOfChain(rule: Rule, suffix: nat, lhs: Nsy, start: nat, fs: seq<nat>, v: nat, m: set<nat>, rank: nat,
      c: seq<Irl>, out: seq<Nsy>)
    requires RuleOk(rule) && |fs| >= 3 && FactorsOf(rule, fs, start) && start <= NextStart(suffix, fs) <= |rule.rhs|
        && Before(lhs, v)
    requires NextFactors(suffix, fs) != [] && FactorsOf(rule, NextFactors(suffix, fs), NextStart(suffix, fs))
    requires Chain(Pieces(rule, suffix, lhs, start, fs, v), lhs, c, out)
    requires c[0] == Linked(rule, lhs, start, NextStart(suffix, fs), m, v, rank)
    ensures var n := NextStart(suffix, fs) - start;
            && |out| >= n && out[..n] == Slice(rule, start, NextStart(suffix, fs), m)
            && Chain(Pieces(rule, suffix, Virtual(v), NextStart(suffix, fs), NextFactors(suffix, fs), v + 1),
                Virtual(v), c[1..], out[n..])
  {
    hide FactorsOf, StepPieces, Pieces;
    StepAndRest(rule, suffix, lhs, start, fs, v);
    var n := NextStart(suffix, fs) - start;
    var step := StepPieces(rule, suffix, lhs, start, fs[0], fs[1], v);
    var rest := Pieces(rule, suffix, Virtual(v), NextStart(suffix, fs), NextFactors(suffix, fs), v + 1);
    assert EndsVirtual(c[0]) && |c[0].rhs| == n + 1 && c[0].rhs[n] == Virtual(v);
    assert c[0].rhs[..n] == Slice(rule, start, NextStart(suffix, fs), m);
    ChainDrop(step, rest, lhs, Virtual(v), c[1..], out[n..]);
  }

  lemma StepAndRest(rule: Rule, suffix: nat, lhs: Nsy, start: nat, fs: seq<nat>, v: nat)
    requires RuleOk(rule) && |fs| >= 3 && FactorsOf(rule, fs, start) && start <= NextStart(suffix, fs) <= |rule.rhs|
        && Before(lhs, v)
    requires NextFactors(suffix, fs) != [] && FactorsOf(rule, NextFactors(suffix, fs), NextStart(suffix, fs))
    ensures start <= fs[0] < fs[1] < |rule.rhs|
    ensures var step := StepPieces(rule, suffix, lhs, start, fs[0], fs[1], v);
            var rest := Pieces(rule, suffix, Virtual(v), NextStart(suffix, fs), NextFactors(suffix, fs), v + 1);
            && Pieces(rule, suffix, lhs, start, fs, v) == step + rest
            && (forall irl | irl in step :: irl.lhs == lhs)
            && (forall irl | irl in rest :: EndsVirtual(irl) ==> irl.rhs[|irl.rhs| - 1] != lhs)
  {
    hide FactorsOf;
    FirstFactors(rule, start, fs);
    PiecesIds(rule, suffix, Virtual(v), NextStart(suffix, fs), NextFactors(suffix, fs), v + 1);
  }

  lemma LastIsTail(rule: Rule, suffix: nat, lhs: Nsy, start: nat, fs: seq<nat>, v: nat, m: set<nat>, nulls: set<nat>)
    requires RuleOk(rule) && |fs| >= 3 && FactorsOf(rule, fs, start) && start <= |rule.rhs|
    requires fs[1] >= suffix && m <= {fs[0]} && nulls == m + ToSet(fs[1..]) && (fs[0] in m ==> start < suffix)
    ensures Allowed(start, suffix, fs, nulls) && nulls * {fs[0]} == m
    ensures ChainFor(rule, suffix, lhs, start, fs, v, nulls)
         == [Last(rule, lhs, start, m + From(fs[1], |rule.rhs|), if fs[0] in m then 0 else 2)]
  {
    NextFactorsOk(rule, suffix, start, fs);
    assert fs[0] in ToSet(fs) && fs[0] < fs[1] && fs[0] !in fs[1..];
  }

  /** CHAF adds no ambiguity: each allowed null pattern of a rule comes from exactly one chain of its pieces. */
  lemma ChainIsUnique(rule: Rule, suffix: nat, lhs: Nsy, fs: seq<nat>, v: nat, c: seq<Irl>, nulls: set<nat>)
    requires RuleOk(rule) && SuffixOf(rule, suffix) && fs != [] && FactorsOf(rule, fs, 0) && Before(lhs, v)
    requires Allowed(0, suffix, fs, nulls)
    ensures Chain(Pieces(rule, suffix, lhs, 0, fs, v), lhs, c, Slice(rule, 0, |rule.rhs|, nulls))
            <==> c == ChainFor(rule, suffix, lhs, 0, fs, v, nulls)
  {
    ChainForSpells(rule, suffix, lhs, 0, fs, v, nulls);
    if Chain(Pieces(rule, suffix, lhs, 0, fs, v), lhs, c, Slice(rule, 0, |rule.rhs|, nulls)) {
      var other := ChainSpellsPattern(rule, suffix, lhs, 0, fs, v, c, Slice(rule, 0, |rule.rhs|, nulls));
      SliceInjective(rule, fs, 0, nulls, other);
    }
  }

  // ---------------------------------------------------------------- no piece is nullable

  ghost predicate StandsUp(irl: Irl) {
    exists k :: 0 <= k < |irl.rhs| && !irl.rhs[k].Nulled?
  }

  lemma SliceStandsUp(rule: Rule, suffix: nat, lhs: Nsy, start: nat, nulls: set<nat>, rank: nat, pos: nat)
    requires RuleOk(rule) && start <= pos < |rule.rhs| && pos !in nulls && rule.kinds[pos] != Nulling
    ensures StandsUp(Last(rule, lhs, start, nulls, rank))
  {
    var irl := Last(rule, lhs, start, nulls, rank);
    assert irl.rhs[pos - start] == Proper(rule.rhs[pos]);
  }

  /** Every internal rule, and so every virtual symbol, derives at least one token: nothing internal is nullable. */
  lemma {:induction false} PiecesStandUp(rule: Rule, suffix: nat, lhs: Nsy, start: nat, fs: seq<nat>, v: nat)
    requires RuleOk(rule) && SuffixOf(rule, suffix) && start <= |rule.rhs| && fs != [] && FactorsOf(rule, fs, start)
    ensures forall irl | irl in Pieces(rule, suffix, lhs, start, fs, v) :: StandsUp(irl)
    decreases |fs|
  {
    if |fs| >= 3 {
      NextFactorsOk(rule, suffix, start, fs);
      FirstFactors(rule, start, fs);
      PiecesStandUp(rule, suffix, Virtual(v), NextStart(suffix, fs), NextFactors(suffix, fs), v + 1);
      hide Pieces, StepPieces, StandsUp;
      forall irl | irl in StepPieces(rule, suffix, lhs, start, fs[0], fs[1], v) ensures StandsUp(irl) {
        var m, linked := StepPieceForm(rule, suffix, lhs, start, fs, v, irl);
        if linked {
          LinkedStandsUp(rule, lhs, start, NextStart(suffix, fs), m, v, RankOf(suffix, fs, m));
        } else {
          assert fs[0] in fs;
          SliceStandsUp(rule, suffix, lhs, start, m + From(fs[1], |rule.rhs|), if fs[0] in m then 0 else 2,
                        if fs[0] in m then suffix - 1 else fs[0]);
        }
      }
      StepThenRest(rule, suffix, lhs, start, fs, v);
    } else {
      forall irl | irl in FinalPieces(rule, suffix, lhs, start, fs) ensures StandsUp(irl) {
        var m := FinalPieceForm(rule, suffix, lhs, start, fs, irl);
        if start < suffix {
          SliceStandsUp(rule, suffix, lhs, start, m, RankOf(suffix, fs, m), suffix - 1);
        } else {
          var f :| f in ToSet(fs) && f !in m;
          SliceStandsUp(rule, suffix, lhs, start, m, RankOf(suffix, fs, m), f);
        }
      }
    }
  }

  lemma StepThenRest(rule: Rule, suffix: nat, lhs: Nsy, start: nat, fs: seq<nat>, v: nat)
    requires RuleOk(rule) && |fs| >= 3 && FactorsOf(rule, fs, start) && start <= |rule.rhs|
    requires NextStart(suffix, fs) <= |rule.rhs| && NextFactors(suffix, fs) != []
    requires FactorsOf(rule, NextFactors(suffix, fs), NextStart(suffix, fs))
    ensures start <= fs[0] < fs[1] < |rule.rhs|
    ensures Pieces(rule, suffix, lhs, start, fs, v)
         == StepPieces(rule, suffix, lhs, start, fs[0], fs[1], v)
            + Pieces(rule, suffix, Virtual(v), NextStart(suffix, fs), NextFactors(suffix, fs), v + 1)
  {
    FirstFactors(rule, start, fs);
  }

  lemma LinkedStandsUp(rule: Rule, lhs: Nsy, start: nat, end: nat, nulls: set<nat>, v: nat, rank: nat)
    requires RuleOk(rule) && start <= end <= |rule.rhs|
    ensures StandsUp(Linked(rule, lhs, start, end, nulls, v, rank))
  {
    var irl := Linked(rule, lhs, start, end, nulls, v, rank);
    assert irl.rhs[end - start] == Virtual(v);
  }
}
