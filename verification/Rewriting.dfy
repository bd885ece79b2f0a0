/** The rewriting pass: external rules in, internal rules out, appended one by one. */
module Rewriting {
  import opened Chaf
  import opened Sequences

  /** The internal rules a BNF rule becomes, with its virtual symbols numbered from `v`. */
  ghost function RuleIrls(rule: Rule, suffix: nat, fs: seq<nat>, v: nat): seq<Irl>
    requires RuleOk(rule) && FactorsOf(rule, fs, 0)
  {
    if fs == [] then [Last(rule, Proper(rule.lhs), 0, {}, 3)] else Pieces(rule, suffix, Proper(rule.lhs), 0, fs, v)
  }

  lemma Onward(all: seq<Irl>, done: seq<Irl>, step: seq<Irl>, more: seq<Irl>)
    requires all == done + (step + more)
    ensures all == (done + step) + more
  {
  }

  lemma Appended(before: seq<Irl>, done: seq<Irl>, step: seq<Irl>)
    ensures (before + done) + step == before + (done + step)
  {
  }

  class Rewriter {
    /** Internal rules so far, in the order they were made. */
    var irls: seq<Irl>
    /** The number of virtual symbols made so far. */
    var virtuals: nat

    constructor ()
      ensures irls == [] && virtuals == 0
    {
      irls, virtuals := [], 0;
    }

    method NewVirtual() returns (v: nat)
      modifies `virtuals
      ensures v == old(virtuals) && virtuals == v + 1
    {
      v := virtuals;
      virtuals := virtuals + 1;
    }

    /** The null versions of the symbols from `pos` on. */
    method NulledTail(rule: Rule, start: nat, pos: nat, nulls: set<nat>) returns (rhs: seq<Nsy>)
      requires RuleOk(rule) && start <= pos <= |rule.rhs|
      ensures rhs == Slice(rule, start, |rule.rhs|, nulls + From(pos, |rule.rhs|))
    {
      var n := |rule.rhs|;
      rhs := Slice(rule, start, pos, nulls);
      for ix := pos to n
        invariant rhs == Slice(rule, start, ix, nulls + From(pos, n))
      {
        rhs := rhs + [Nulled(rule.rhs[ix])];
      }
    }

    /** One step with three or more factors left. */
    method EmitStep(rule: Rule, suffix: nat, lhs: Nsy, start: nat, first: nat, second: nat) returns (v: nat)
      requires RuleOk(rule) && start <= first < second < |rule.rhs|
      modifies `irls, `virtuals
      ensures v == old(virtuals) && virtuals == v + 1
      ensures irls == old(irls) + StepPieces(rule, suffix, lhs, start, first, second, v)
    {
      v := NewVirtual();
      var n := |rule.rhs|;
      if second >= suffix {
        irls := irls + [Linked(rule, lhs, start, second, {}, v, 3)];
        var tail := NulledTail(rule, start, second, {});
        assert {} + From(second, n) == From(second, n);
        irls := irls + [Irl(lhs, tail, 2, start, n - start)];
        irls := irls + [Linked(rule, lhs, start, second, {first}, v, 1)];
        if start < suffix {
          tail := NulledTail(rule, start, second, {first});
          irls := irls + [Irl(lhs, tail, 0, start, n - start)];
        }
      } else {
        irls := irls + [Linked(rule, lhs, start, second + 1, {}, v, 3)];
        irls := irls + [Linked(rule, lhs, start, second + 1, {second}, v, 2)];
        irls := irls + [Linked(rule, lhs, start, second + 1, {first}, v, 1)];
        irls := irls + [Linked(rule, lhs, start, second + 1, {first, second}, v, 0)];
      }
    }

    method EmitFinal(rule: Rule, suffix: nat, lhs: Nsy, start: nat, fs: seq<nat>)
      requires RuleOk(rule) && start <= |rule.rhs| && 1 <= |fs| <= 2
      modifies `irls
      ensures irls == old(irls) + FinalPieces(rule, suffix, lhs, start, fs)
    {
      irls := irls + [Last(rule, lhs, start, {}, 3)];
      if |fs| == 2 {
        irls := irls + [Last(rule, lhs, start, {fs[1]}, 2)];
        irls := irls + [Last(rule, lhs, start, {fs[0]}, 1)];
        if start < suffix {
          irls := irls + [Last(rule, lhs, start, {fs[0], fs[1]}, 0)];
        }
      } else if start < suffix {
        irls := irls + [Last(rule, lhs, start, {fs[0]}, 0)];
      }
    }

    /** Cut a rule with nullable factors into pieces, two factors at a time. */
    method EmitPieces(rule: Rule, suffix: nat, fs: seq<nat>)
      requires RuleOk(rule) && fs != [] && FactorsOf(rule, fs, 0)
      modifies `irls, `virtuals
      ensures irls == old(irls) + Pieces(rule, suffix, Proper(rule.lhs), 0, fs, old(virtuals))
      ensures virtuals == old(virtuals) + VirtualsUsed(suffix, fs)
    {
      hide FactorsOf, StepPieces, FinalPieces, Pieces, Slice;
      var lhs, start: nat, rest := Proper(rule.lhs), 0, fs;
      ghost var all := Pieces(rule, suffix, lhs, 0, fs, virtuals);
      ghost var done: seq<Irl> := [];
      while |rest| >= 3
        invariant start <= |rule.rhs| && rest != [] && FactorsOf(rule, rest, start)
        invariant virtuals + VirtualsUsed(suffix, rest) == old(virtuals) + VirtualsUsed(suffix, fs)
        invariant irls == old(irls) + done && all == done + Pieces(rule, suffix, lhs, start, rest, virtuals)
        decreases |rest|
      {
        NextFactorsOk(rule, suffix, start, rest);
        FirstFactors(rule, start, rest);
        StepThenRest(rule, suffix, lhs, start, rest, virtuals);
        var first, second := rest[0], rest[1];
        ghost var step := StepPieces(rule, suffix, lhs, start, first, second, virtuals);
        Onward(all, done, step, Pieces(rule, suffix, Virtual(virtuals), NextStart(suffix, rest),
            NextFactors(suffix, rest), virtuals + 1));
        Appended(old(irls), done, step);
        done := done + step;
        var v := EmitStep(rule, suffix, lhs, start, first, second);
        if second >= suffix {
          start, rest := second, rest[1..];
        } else {
          start, rest := second + 1, rest[2..];
        }
        lhs := Virtual(v);
      }
      FinalAll(rule, suffix, lhs, start, rest, virtuals);
      EmitFinal(rule, suffix, lhs, start, rest);
    }

    /** Rewrite one BNF rule. */
    method RewriteRule(rule: Rule) returns (ghost fs: seq<nat>, ghost suffix: nat)
      requires RuleOk(rule)
      modifies `irls, `virtuals
      ensures FactorsOf(rule, fs, 0) && SuffixOf(rule, suffix)
      ensures irls == old(irls) + RuleIrls(rule, suffix, fs, old(virtuals))
      ensures virtuals == old(virtuals) + VirtualsUsed(suffix, fs)
    {
      var positions, last := Census(rule);
      fs, suffix := positions, last;
      if |positions| > 0 {
        EmitPieces(rule, last, positions);
      } else {
        irls := irls + [Last(rule, Proper(rule.lhs), 0, {}, 3)];
      }
    }

    /** The positions of the proper nullable symbols, and the end of the last symbol that cannot be null. */
    method Census(rule: Rule) returns (fs: seq<nat>, suffix: nat)
      requires RuleOk(rule)
      ensures FactorsOf(rule, fs, 0) && SuffixOf(rule, suffix)
    {
      fs, suffix := [], 0;
      for ix := 0 to |rule.rhs|
        invariant forall k | 0 <= k < |fs| :: fs[k] < ix
        invariant forall k, m | 0 <= k < m < |fs| :: fs[k] < fs[m]
        invariant forall pos | 0 <= pos < ix :: pos in fs <==> rule.kinds[pos] == ProperNullable
        invariant suffix <= ix && (suffix > 0 ==> rule.kinds[suffix - 1] == NonNullable)
        invariant forall pos | suffix <= pos < ix :: rule.kinds[pos] != NonNullable
      {
        if rule.kinds[ix] == Nulling {
        } else if rule.kinds[ix] == ProperNullable {
          fs := fs + [ix];
        } else {
          suffix := ix + 1;
        }
      }
    }

    /** Rewrite one sequence rule. */
    method RewriteSequence(q: SequenceRule)
      modifies `irls, `virtuals
      ensures irls == old(irls) + SequenceIrls(q, old(virtuals)) && virtuals == old(virtuals) + 1
      ensures forall k | |old(irls)| <= k < |irls| :: irls[k].chafRank == 3
    {
      var v := NewVirtual();
      irls := irls + [Irl(Proper(q.lhs), [Virtual(v)], 3, 0, 0)];
      if q.hasSeparator && !q.proper {
        irls := irls + [Irl(Proper(q.lhs), [Virtual(v), Proper(q.separator)], 3, 0, 1)];
      }
      irls := irls + [Irl(Virtual(v), [Proper(q.item)], 3, 0, 1)];
      var rhs := [Virtual(v)];
      if q.hasSeparator {
        rhs := rhs + [Proper(q.separator)];
      }
      rhs := rhs + [Proper(q.item)];
      assert rhs == [Virtual(v)] + Between(q);
      irls := irls + [Irl(Virtual(v), rhs, 3, 0, |rhs| - 1)];
    }
  }

  /** One rule rewritten: each null pattern that leaves something standing has exactly one chain, the chain
      covers the rule's symbols once, and no internal rule is nullable. */
  lemma RewriteKeepsPatterns(rule: Rule, suffix: nat, fs: seq<nat>, v: nat, nulls: set<nat>)
    requires RuleOk(rule) && SuffixOf(rule, suffix) && FactorsOf(rule, fs, 0) && Allowed(0, suffix, fs, nulls)
    ensures exists c :: Chain(RuleIrls(rule, suffix, fs, v), Proper(rule.lhs), c, Slice(rule, 0, |rule.rhs|, nulls))
                     && RealCount(c) == |rule.rhs|
    ensures forall c, d ::
              && Chain(RuleIrls(rule, suffix, fs, v), Proper(rule.lhs), c, Slice(rule, 0, |rule.rhs|, nulls))
              && Chain(RuleIrls(rule, suffix, fs, v), Proper(rule.lhs), d, Slice(rule, 0, |rule.rhs|, nulls))
              ==> c == d
    ensures forall irl | irl in RuleIrls(rule, suffix, fs, v) :: StandsUp(irl)
  {
    var irls, lhs, out := RuleIrls(rule, suffix, fs, v), Proper(rule.lhs), Slice(rule, 0, |rule.rhs|, nulls);
    if fs == [] {
      CloneIsChain(rule, suffix, nulls);
    } else {
      ChainForSpells(rule, suffix, lhs, 0, fs, v, nulls);
      forall c, d | Chain(irls, lhs, c, out) && Chain(irls, lhs, d, out) ensures c == d {
        ChainIsUnique(rule, suffix, lhs, fs, v, c, nulls);
        ChainIsUnique(rule, suffix, lhs, fs, v, d, nulls);
      }
      PiecesStandUp(rule, suffix, lhs, 0, fs, v);
    }
  }

  lemma CloneIsChain(rule: Rule, suffix: nat, nulls: set<nat>)
    requires RuleOk(rule) && SuffixOf(rule, suffix) && FactorsOf(rule, [], 0) && Allowed(0, suffix, [], nulls)
    ensures var irls := [Last(rule, Proper(rule.lhs), 0, {}, 3)];
            && Chain(irls, Proper(rule.lhs), irls, Slice(rule, 0, |rule.rhs|, nulls)) && RealCount(irls) == |rule.rhs|
            && (forall c | Chain(irls, Proper(rule.lhs), c, Slice(rule, 0, |rule.rhs|, nulls)) :: c == irls)
            && StandsUp(irls[0])
  {
    assert ToSet([]) == {} && nulls == {};
    var irls := [Last(rule, Proper(rule.lhs), 0, {}, 3)];
    PieceIds(rule, Proper(rule.lhs), 0, 0, {}, 0, 3);
    SliceStandsUp(rule, suffix, Proper(rule.lhs), 0, {}, 3, suffix - 1);
  }
}
