/** What the rule steps get as arguments: one value for each symbol of the original rule, in order. */
module Arguments {
  import opened Chaf
  import opened Sequences
  import opened Rewriting
  import opened Trees
  import opened ParseTrees
  import opened Valuations
  import opened Valuators

  /** The symbols a tree has matched, with virtual symbols opened up in place. */
  ghost function Spelled(a: Labelled, t: PTree): seq<Nsy>
    requires Rooted(a, t)
    decreases t
  {
    RootedOr(a, t);
    var symbol := CodeOf(a, t.or).irl.rhs[a.labels[t.or].position - 1];
    (if AndAt(a, t).predecessor.Some? then Spelled(a, PredecessorTree(a, t)) else [])
    + if symbol.Virtual? && AndAt(a, t).cause.Some? then Spelled(a, CauseTree(a, t)) else [symbol]
  }

  /** The value is one of this symbol. */
  ghost predicate Denotes(a: Labelled, value: Value, symbol: Nsy) {
    match value
    case Token(s, _, _, _) => symbol == Proper(s)
    case Null(s, _) => symbol == Nulled(s)
    case Applied(rule, _, _, _) => exists i ::
        0 <= i < |a.codes| && a.codes[i].rule == rule && a.codes[i].irl.lhs == symbol
  }

  ghost predicate AllDenote(a: Labelled, values: seq<Value>, symbols: seq<Nsy>) {
    |values| == |symbols| && forall k | 0 <= k < |values| :: Denotes(a, values[k], symbols[k])
  }

  lemma DenoteAppend(a: Labelled, v: seq<Value>, s: seq<Nsy>, w: seq<Value>, r: seq<Nsy>)
    requires AllDenote(a, v, s) && AllDenote(a, w, r)
    ensures AllDenote(a, v + w, s + r)
  {
  }

  lemma TokDenotes(a: Labelled, t: PTree)
    requires Rooted(a, t) && AndAt(a, t).cause.None?
    ensures HasAnd(a, t.or, t.choice)
    ensures Denotes(a, TokValue(a, t.or, t.choice), CodeOf(a, t.or).irl.rhs[a.labels[t.or].position - 1])
  {
    RootedOr(a, t);
  }

  /** The last symbol matched. */
  ghost function Here(a: Labelled, t: PTree): Nsy
    requires Rooted(a, t)
  {
    RootedOr(a, t);
    CodeOf(a, t.or).irl.rhs[a.labels[t.or].position - 1]
  }

  /** What it was matched by: a token, another complete rule, or a piece of this one. */
  lemma CauseDenotes(a: Labelled, t: PTree)
    requires Rooted(a, t)
    requires AndAt(a, t).cause.Some? && Here(a, t).Virtual? ==>
               AllDenote(a, Matched(a, CauseTree(a, t)), Spelled(a, CauseTree(a, t)))
    ensures HasAnd(a, t.or, t.choice)
    ensures AllDenote(a, if AndAt(a, t).cause.Some? then Values(a, CauseTree(a, t)) else [TokValue(a, t.or, t.choice)],
                      if Here(a, t).Virtual? && AndAt(a, t).cause.Some? then Spelled(a, CauseTree(a, t))
                          else [Here(a, t)])
  {
    hide Rooted, AllDenote, Spelled, Matched, Denotes;
    RootedOr(a, t);
    CauseVirtual(a, t);
    if AndAt(a, t).cause.Some? {
      var u := CauseTree(a, t);
      RootedOr(a, u);
      if !Here(a, t).Virtual? {
        AppliedDenotes(a, u);
        DenoteOne(a, Values(a, u)[0], Here(a, t));
      }
    } else {
      TokDenotes(a, t);
      DenoteOne(a, TokValue(a, t.or, t.choice), Here(a, t));
    }
  }

  lemma AppliedDenotes(a: Labelled, u: PTree)
    requires Rooted(a, u) && OrOk(a, u.or) && Complete(a, u.or) && !CodeOf(a, u.or).virtualLhs
    ensures |Values(a, u)| == 1 && Denotes(a, Values(a, u)[0], CodeOf(a, u.or).irl.lhs)
  {
  }

  /** The values matched are, one by one, those of the symbols spelled. */
  lemma {:induction false} MatchedDenotes(a: Labelled, t: PTree)
    requires Rooted(a, t)
    ensures AllDenote(a, Matched(a, t), Spelled(a, t))
    decreases t
  {
    hide Rooted, AllDenote, Values, TokValue, AndAt, HasAnd;
    RootedOr(a, t);
    if AndAt(a, t).cause.Some? && Here(a, t).Virtual? {
      MatchedDenotes(a, CauseTree(a, t));
    }
    CauseDenotes(a, t);
    if AndAt(a, t).predecessor.Some? {
      var u := PredecessorTree(a, t);
      PredecessorOpen(a, t);
      MatchedDenotes(a, u);
      DenoteAppend(a, Matched(a, u), Spelled(a, u),
                   if AndAt(a, t).cause.Some? then Values(a, CauseTree(a, t)) else [TokValue(a, t.or, t.choice)],
                   if Here(a, t).Virtual? && AndAt(a, t).cause.Some? then Spelled(a, CauseTree(a, t))
                       else [Here(a, t)]);
    } else {
      DenoteNone(a);
      DenoteAppend(a, [], [],
                   if AndAt(a, t).cause.Some? then Values(a, CauseTree(a, t)) else [TokValue(a, t.or, t.choice)],
                   if Here(a, t).Virtual? && AndAt(a, t).cause.Some? then Spelled(a, CauseTree(a, t))
                       else [Here(a, t)]);
    }
  }

  /** The predecessor is not complete, so its values are what it matched. */
  lemma PredecessorOpen(a: Labelled, t: PTree)
    requires Rooted(a, t) && AndAt(a, t).predecessor.Some?
    ensures Values(a, PredecessorTree(a, t)) == Matched(a, PredecessorTree(a, t))
  {
    RootedOr(a, t);
    RootedOr(a, PredecessorTree(a, t));
  }

  lemma DenoteNone(a: Labelled)
    ensures AllDenote(a, [], [])
  {
  }

  lemma DenoteOne(a: Labelled, value: Value, symbol: Nsy)
    requires Denotes(a, value, symbol)
    ensures AllDenote(a, [value], [symbol])
  {
  }

  // ---------------------------------------------------------------- BNF rules

  /** The virtual symbols of these rules belong to these rules alone. */
  ghost predicate Owned(a: Labelled, irls: seq<Irl>) {
    forall irl, k, i | irl in irls && 0 <= k < |irl.rhs| && irl.rhs[k].Virtual? && 0 <= i < |a.codes| ::
      a.codes[i].irl.lhs == irl.rhs[k] ==> a.codes[i].irl in irls
  }

  /** Without virtual symbols a prefix of a rule is spelled as it stands. */
  lemma {:induction false} PlainPrefix(a: Labelled, t: PTree)
    requires Rooted(a, t) && OrOk(a, t.or)
    requires var p, rhs := a.labels[t.or].position, CodeOf(a, t.or).irl.rhs;
             forall k | 0 <= k < p :: !rhs[k].Virtual?
    ensures Spelled(a, t) == CodeOf(a, t.or).irl.rhs[..a.labels[t.or].position]
    decreases t
  {
    RootedOr(a, t);
    var p, rhs := a.labels[t.or].position, CodeOf(a, t.or).irl.rhs;
    assert rhs[..p] == rhs[..p - 1] + [rhs[p - 1]];
    if AndAt(a, t).predecessor.Some? {
      RootedOr(a, PredecessorTree(a, t));
      PlainPrefix(a, PredecessorTree(a, t));
    }
  }

  /** A rule whose only virtual symbol is its last spells the others and then what that symbol spells. */
  lemma LastVirtual(a: Labelled, t: PTree) returns (u: PTree)
    requires Rooted(a, t) && OrOk(a, t.or) && Complete(a, t.or) && EndsVirtual(CodeOf(a, t.or).irl)
    requires forall k | 0 <= k < |CodeOf(a, t.or).irl.rhs| - 1 :: !CodeOf(a, t.or).irl.rhs[k].Virtual?
    ensures Rooted(a, u) && u < t && OrOk(a, u.or) && Complete(a, u.or)
    ensures var rhs := CodeOf(a, t.or).irl.rhs;
            && CodeOf(a, u.or).irl.lhs == rhs[|rhs| - 1]
            && Spelled(a, t) == rhs[..|rhs| - 1] + Spelled(a, u)
  {
    RootedOr(a, t);
    CauseVirtual(a, t);
    u := CauseTree(a, t);
    RootedOr(a, u);
    hide Rooted, AndAt, EndsVirtual;
    if a.labels[t.or].position > 1 {
      var w := PredecessorLabel(a, t);
      PlainPrefix(a, w);
    } else {
      FirstLabel(a, t);
    }
  }

  lemma FirstLabel(a: Labelled, t: PTree)
    requires Rooted(a, t) && OrOk(a, t.or) && a.labels[t.or].position == 1
    ensures AndAt(a, t).predecessor.None?
  {
    RootedOr(a, t);
  }

  lemma PredecessorLabel(a: Labelled, t: PTree) returns (w: PTree)
    requires Rooted(a, t) && OrOk(a, t.or) && a.labels[t.or].position > 1
    ensures AndAt(a, t).predecessor.Some? && w == PredecessorTree(a, t) && Rooted(a, w) && w < t && OrOk(a, w.or)
    ensures a.labels[w.or].irl == a.labels[t.or].irl && a.labels[w.or].position == a.labels[t.or].position - 1
  {
    RootedOr(a, t);
    w := PredecessorTree(a, t);
    RootedOr(a, w);
  }

  lemma OnlyLastVirtual(irl: Irl)
    requires Counted(irl) && EndsVirtual(irl)
    ensures forall k | 0 <= k < |irl.rhs| - 1 :: !irl.rhs[k].Virtual?
  {
    NoneVirtual(irl.rhs[..|irl.rhs| - 1]);
  }

  lemma NoneVirtual(rhs: seq<Nsy>)
    requires Virtuals(rhs) == 0
    ensures forall k | 0 <= k < |rhs| :: !rhs[k].Virtual?
  {
    if rhs != [] {
      NoneVirtual(rhs[..|rhs| - 1]);
    }
  }

  /** Following the last symbols down gives a chain of pieces that spells what the tree spells. */
  lemma {:induction false} TreeIsChain(a: Labelled, irls: seq<Irl>, t: PTree) returns (c: seq<Irl>)
    requires Rooted(a, t) && OrOk(a, t.or) && Complete(a, t.or) && CodeOf(a, t.or).irl in irls && Owned(a, irls)
    requires forall irl | irl in irls :: Linkable(irl)
    ensures Chain(irls, CodeOf(a, t.or).irl.lhs, c, Spelled(a, t))
    decreases t
  {
    hide Rooted, Spelled, Chain, Owned, Complete, Linkable, EndsVirtual, Virtuals;
    var irl := CodeOf(a, t.or).irl;
    if EndsVirtual(irl) {
      EndOnly(irl);
      var u := LastVirtual(a, t);
      OwnedAt(a, irls, irl, a.labels[u.or].irl);
      var rest := TreeIsChain(a, irls, u);
      ChainCons(irls, irl, rest, Spelled(a, u));
      c := [irl] + rest;
    } else {
      NoEnd(irl);
      WholePlain(a, t);
      ChainOne(irls, irl);
      c := [irl];
    }
  }

  lemma EndOnly(irl: Irl)
    requires Linkable(irl) && EndsVirtual(irl)
    ensures forall k | 0 <= k < |irl.rhs| - 1 :: !irl.rhs[k].Virtual?
  {
    OnlyLastVirtual(irl);
  }

  lemma NoEnd(irl: Irl)
    requires Linkable(irl) && !EndsVirtual(irl)
    ensures forall k | 0 <= k < |irl.rhs| :: !irl.rhs[k].Virtual?
  {
    NoneVirtual(irl.rhs);
  }

  lemma WholePlain(a: Labelled, t: PTree)
    requires Rooted(a, t) && OrOk(a, t.or) && Complete(a, t.or)
    requires forall k | 0 <= k < |CodeOf(a, t.or).irl.rhs| :: !CodeOf(a, t.or).irl.rhs[k].Virtual?
    ensures Spelled(a, t) == CodeOf(a, t.or).irl.rhs
  {
    PlainPrefix(a, t);
    assert CodeOf(a, t.or).irl.rhs[..|CodeOf(a, t.or).irl.rhs|] == CodeOf(a, t.or).irl.rhs;
  }

  lemma OwnedAt(a: Labelled, irls: seq<Irl>, irl: Irl, i: nat)
    requires Owned(a, irls) && irl in irls && EndsVirtual(irl) && i < |a.codes|
        && a.codes[i].irl.lhs == irl.rhs[|irl.rhs| - 1]
    ensures a.codes[i].irl in irls
  {
    assert irl.rhs[|irl.rhs| - 1].Virtual?;
  }

  lemma ChainOne(irls: seq<Irl>, irl: Irl)
    requires irl in irls && !EndsVirtual(irl)
    ensures Chain(irls, irl.lhs, [irl], irl.rhs)
  {
  }

  lemma ChainCons(irls: seq<Irl>, irl: Irl, rest: seq<Irl>, out: seq<Nsy>)
    requires irl in irls && EndsVirtual(irl) && Chain(irls, irl.rhs[|irl.rhs| - 1], rest, out)
    ensures Chain(irls, irl.lhs, [irl] + rest, irl.rhs[..|irl.rhs| - 1] + out)
  {
    var n, c, whole := |irl.rhs| - 1, [irl] + rest, irl.rhs[..|irl.rhs| - 1] + out;
    assert c[1..] == rest && whole[n..] == out && whole[..n] == irl.rhs[..n];
  }

  /** However a BNF rule was cut into pieces, its rule step gets one value for each of its symbols, in order. */
  lemma RuleArguments(a: Labelled, t: PTree, rule: Rule, suffix: nat, fs: seq<nat>, v: nat) returns (nulls: set<nat>)
    requires Rooted(a, t) && OrOk(a, t.or) && Complete(a, t.or)
    requires RuleOk(rule) && rule.rhs != [] && SuffixOf(rule, suffix) && FactorsOf(rule, fs, 0)
    requires CodeOf(a, t.or).irl in RuleIrls(rule, suffix, fs, v) && CodeOf(a, t.or).irl.lhs == Proper(rule.lhs)
    requires Owned(a, RuleIrls(rule, suffix, fs, v))
    ensures nulls <= ToSet(fs) && (fs != [] ==> Allowed(0, suffix, fs, nulls))
    ensures AllDenote(a, Matched(a, t), Slice(rule, 0, |rule.rhs|, nulls))
  {
    hide Rooted, AllDenote, Pieces, FactorsOf, SuffixOf, Complete, Owned;
    var irls := RuleIrls(rule, suffix, fs, v);
    MatchedDenotes(a, t);
    if fs == [] {
      PieceCounted(rule, Proper(rule.lhs), 0, 0, {}, v, 3);
      var c := TreeIsChain(a, irls, t);
      var irl := Last(rule, Proper(rule.lhs), 0, {}, 3);
      PieceIds(rule, Proper(rule.lhs), 0, 0, {}, 0, 3);
      assert c[0] == irl;
      nulls := {};
    } else {
      PiecesCounted(rule, suffix, Proper(rule.lhs), 0, fs, v);
      var c := TreeIsChain(a, irls, t);
      nulls := ChainSpellsPattern(rule, suffix, Proper(rule.lhs), 0, fs, v, c, Spelled(a, t));
    }
  }

  // ---------------------------------------------------------------- sequences

  /** A rule whose only virtual symbol is its first spells what that symbol spells and then the others. */
  lemma {:induction false} FirstVirtual(a: Labelled, t: PTree) returns (u: PTree)
    requires Rooted(a, t) && OrOk(a, t.or)
    requires CodeOf(a, t.or).irl.rhs[0].Virtual?
    requires forall k | 1 <= k < |CodeOf(a, t.or).irl.rhs| :: !CodeOf(a, t.or).irl.rhs[k].Virtual?
    ensures Rooted(a, u) && u < t && OrOk(a, u.or) && Complete(a, u.or)
    ensures var rhs := CodeOf(a, t.or).irl.rhs;
            && CodeOf(a, u.or).irl.lhs == rhs[0]
            && Spelled(a, t) == Spelled(a, u) + rhs[1..a.labels[t.or].position]
    decreases t
  {
    hide Rooted, AndAt, Complete, Spelled;
    var p, rhs := a.labels[t.or].position, CodeOf(a, t.or).irl.rhs;
    if p == 1 {
      u := CauseOfFirst(a, t);
    } else {
      var w := PredecessorOf(a, t);
      u := FirstVirtual(a, w);
      assert rhs[1..p] == rhs[1..p - 1] + [rhs[p - 1]];
      assert Spelled(a, u) + rhs[1..p] == (Spelled(a, u) + rhs[1..p - 1]) + [rhs[p - 1]];
    }
  }

  lemma CauseOfFirst(a: Labelled, t: PTree) returns (u: PTree)
    requires Rooted(a, t) && OrOk(a, t.or)
    requires a.labels[t.or].position == 1 && CodeOf(a, t.or).irl.rhs[0].Virtual?
    ensures Rooted(a, u) && u < t && OrOk(a, u.or) && Complete(a, u.or)
    ensures CodeOf(a, u.or).irl.lhs == CodeOf(a, t.or).irl.rhs[0] && Spelled(a, t) == Spelled(a, u) + []
  {
    RootedOr(a, t);
    CauseVirtual(a, t);
    u := CauseTree(a, t);
    RootedOr(a, u);
    assert [] + Spelled(a, u) == Spelled(a, u) + [];
  }

  lemma PredecessorOf(a: Labelled, t: PTree) returns (w: PTree)
    requires Rooted(a, t) && OrOk(a, t.or) && a.labels[t.or].position > 1
    ensures Rooted(a, w) && w < t && OrOk(a, w.or)
    ensures a.labels[w.or].irl == a.labels[t.or].irl && a.labels[w.or].position == a.labels[t.or].position - 1
    ensures var symbol := CodeOf(a, t.or).irl.rhs[a.labels[t.or].position - 1];
            !symbol.Virtual? ==> Spelled(a, t) == Spelled(a, w) + [symbol]
  {
    w := PredecessorLabel(a, t);
    hide Rooted, AndAt;
    RootedOr(a, t);
  }

  predicate StartsVirtual(irl: Irl) {
    Counted(irl) && (Virtuals(irl.rhs) > 0 ==> irl.rhs[0].Virtual? && forall k | 1 <= k < |irl.rhs| ::
        !irl.rhs[k].Virtual?)
  }

  lemma {:induction false} TreeUnrolls(a: Labelled, irls: seq<Irl>, t: PTree) returns (depth: nat)
    requires Rooted(a, t) && OrOk(a, t.or) && Complete(a, t.or) && CodeOf(a, t.or).irl in irls && Owned(a, irls)
    requires forall irl | irl in irls :: StartsVirtual(irl)
    ensures depth > 0 && Unrolls(irls, CodeOf(a, t.or).irl.lhs, depth, Spelled(a, t))
    decreases t
  {
    hide Rooted;
    var irl := CodeOf(a, t.or).irl;
    assert irl.rhs[..|irl.rhs|] == irl.rhs;
    if Virtuals(irl.rhs) > 0 {
      var u := FirstVirtual(a, t);
      assert CodeOf(a, u.or).irl in irls by { assert irl.rhs[0].Virtual?; }
      var d := TreeUnrolls(a, irls, u);
      UnrollsStep(irls, irl, d, Spelled(a, u), irl.rhs[1..]);
      depth := d + 1;
    } else {
      NoneVirtual(irl.rhs);
      PlainPrefix(a, t);
      depth := 1;
      assert UnrollsBy(irls, irl, 1, Spelled(a, t));
    }
  }

  lemma SequenceStartsVirtual(q: SequenceRule, v: nat)
    ensures forall irl | irl in SequenceIrls(q, v) :: StartsVirtual(irl)
  {
    SequenceCounted(q, v);
  }

  /** The rule step of a sequence gets its items, separated, and a last separator where that is allowed. */
  lemma SequenceArguments(a: Labelled, t: PTree, q: SequenceRule, v: nat) returns (count: nat, trailing: bool)
    requires Rooted(a, t) && OrOk(a, t.or) && Complete(a, t.or)
    requires CodeOf(a, t.or).irl in SequenceIrls(q, v) && CodeOf(a, t.or).irl.lhs == Proper(q.lhs)
    requires Owned(a, SequenceIrls(q, v))
    ensures count > 0 && (trailing ==> q.hasSeparator && !q.proper)
    ensures AllDenote(a, Matched(a, t), Items(q, count) + if trailing then [Proper(q.separator)] else [])
  {
    hide Rooted, AllDenote, SequenceIrls, Complete, Owned, Unrolls;
    var out := Spelled(a, t);
    MatchedDenotes(a, t);
    SequenceStartsVirtual(q, v);
    var depth := TreeUnrolls(a, SequenceIrls(q, v), t);
    SequenceIsItems(q, v, depth - 1, out);
    trailing := !IsItems(q, depth - 1, out);
    if trailing {
      var front :| IsItems(q, depth - 1, front) && out == front + [Proper(q.separator)];
      count :| 0 < count <= depth - 1 && front == Items(q, count);
    } else {
      count :| 0 < count <= depth - 1 && out == Items(q, count);
      assert Items(q, count) + [] == Items(q, count);
    }
  }
}
