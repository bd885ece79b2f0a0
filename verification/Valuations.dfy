/** What a parse tree means: its value by recursion, the stack-machine program for it, and that the two agree. */
module Valuations {
  import opened Chaf
  import opened Sequences
  import opened Rewriting
  import opened Trees
  import opened TreeIterators
  import opened ParseTrees

  /** An internal rule as the valuator sees it. */
  datatype Code = Code(irl: Irl, virtualLhs: bool, rule: nat)

  predicate VirtualRhs(irl: Irl) {
    |irl.rhs| > irl.realCount
  }

  function Virtuals(rhs: seq<Nsy>): (n: nat)
    ensures n <= |rhs|
  {
    if rhs == [] then 0
    else Virtuals(rhs[..|rhs| - 1]) + if rhs[|rhs| - 1].Virtual? then 1 else 0
  }

  /** At most one right-hand symbol is virtual, and the real count is the number of the others. */
  predicate Counted(irl: Irl) {
    irl.rhs != [] && Virtuals(irl.rhs) <= 1 && irl.realCount + Virtuals(irl.rhs) == |irl.rhs|
  }

  /** A piece: its virtual symbol, if any, is its last. */
  ghost predicate Linkable(irl: Irl) {
    Counted(irl) && (Virtuals(irl.rhs) > 0 ==> EndsVirtual(irl))
  }

  lemma NoVirtuals(rhs: seq<Nsy>)
    requires forall k | 0 <= k < |rhs| :: !rhs[k].Virtual?
    ensures Virtuals(rhs) == 0
  {
  }

  lemma LinkedCounted(rule: Rule, lhs: Nsy, start: nat, end: nat, nulls: set<nat>, v: nat, rank: nat)
    requires RuleOk(rule) && start <= end <= |rule.rhs|
    ensures Linkable(Linked(rule, lhs, start, end, nulls, v, rank))
  {
    var front := Slice(rule, start, end, nulls);
    NoVirtuals(front);
    VirtualsSnoc(front, Virtual(v));
    hide Virtuals, Slice;
    assert Linked(rule, lhs, start, end, nulls, v, rank).rhs == front + [Virtual(v)];
  }

  lemma VirtualsSnoc(rhs: seq<Nsy>, symbol: Nsy)
    ensures Virtuals(rhs + [symbol]) == Virtuals(rhs) + if symbol.Virtual? then 1 else 0
  {
    assert (rhs + [symbol])[..|rhs|] == rhs;
  }

  lemma LastCounted(rule: Rule, lhs: Nsy, start: nat, nulls: set<nat>, rank: nat)
    requires RuleOk(rule) && start < |rule.rhs|
    ensures Linkable(Last(rule, lhs, start, nulls, rank))
  {
    NoVirtuals(Slice(rule, start, |rule.rhs|, nulls));
    hide Virtuals, Slice;
  }

  lemma PieceCounted(rule: Rule, lhs: Nsy, start: nat, end: nat, nulls: set<nat>, v: nat, rank: nat)
    requires RuleOk(rule) && start <= end <= |rule.rhs|
    ensures Linkable(Linked(rule, lhs, start, end, nulls, v, rank))
    ensures start < |rule.rhs| ==> Linkable(Last(rule, lhs, start, nulls, rank))
  {
    hide Linkable, Slice, Linked, Last;
    LinkedCounted(rule, lhs, start, end, nulls, v, rank);
    if start < |rule.rhs| {
      LastCounted(rule, lhs, start, nulls, rank);
    }
  }

  /** The pieces CHAF cuts a rule into are counted right and end with their virtual symbol. */
  lemma {:induction false} PiecesCounted(rule: Rule, suffix: nat, lhs: Nsy, start: nat, fs: seq<nat>, v: nat)
    requires RuleOk(rule) && start <= |rule.rhs| && fs != [] && FactorsOf(rule, fs, start)
    ensures forall irl | irl in Pieces(rule, suffix, lhs, start, fs, v) :: Linkable(irl)
    decreases |fs|
  {
    assert fs[0] in fs;
    if |fs| >= 3 {
      NextFactorsOk(rule, suffix, start, fs);
      FirstFactors(rule, start, fs);
      StepThenRest(rule, suffix, lhs, start, fs, v);
      PiecesCounted(rule, suffix, Virtual(v), NextStart(suffix, fs), NextFactors(suffix, fs), v + 1);
      hide FactorsOf, Pieces, StepPieces, Linkable;
      forall irl | irl in StepPieces(rule, suffix, lhs, start, fs[0], fs[1], v) ensures Linkable(irl) {
        var m, linked := StepPieceForm(rule, suffix, lhs, start, fs, v, irl);
        PieceCounted(rule, lhs, start, NextStart(suffix, fs), m, v, RankOf(suffix, fs, m));
        PieceCounted(rule, lhs, start, start, m + From(fs[1], |rule.rhs|), v, if fs[0] in m then 0 else 2);
      }
    } else {
      forall irl | irl in FinalPieces(rule, suffix, lhs, start, fs) ensures Linkable(irl) {
        var m := FinalPieceForm(rule, suffix, lhs, start, fs, irl);
        PieceCounted(rule, lhs, start, start, m, v, RankOf(suffix, fs, m));
      }
    }
  }

  /** Every internal rule made from a BNF rule that is not empty, or from a sequence, is counted right. */
  lemma RewriteCounts(rule: Rule, suffix: nat, fs: seq<nat>, q: SequenceRule, v: nat)
    requires RuleOk(rule) && rule.rhs != [] && FactorsOf(rule, fs, 0)
    ensures forall irl | irl in RuleIrls(rule, suffix, fs, v) :: Linkable(irl)
    ensures forall irl | irl in SequenceIrls(q, v) :: Counted(irl)
  {
    if fs == [] {
      PieceCounted(rule, Proper(rule.lhs), 0, 0, {}, v, 3);
    } else {
      PiecesCounted(rule, suffix, Proper(rule.lhs), 0, fs, v);
    }
    SequenceCounted(q, v);
  }

  lemma SequenceCounted(q: SequenceRule, v: nat)
    ensures forall irl | irl in SequenceIrls(q, v) :: Counted(irl)
  {
    var one, item := [Virtual(v)], Proper(q.item);
    assert one[..0] == [] && Virtuals(one) == 1;
    var two := [Virtual(v), Proper(q.separator)];
    assert two[..1] == one && Virtuals(two) == 1;
    NoVirtuals([item]);
    var short, long := [Virtual(v), item], [Virtual(v), Proper(q.separator), item];
    assert short[..1] == one && Virtuals(short) == 1;
    assert long[..2] == two && Virtuals(long) == 1;
    assert More(q, v).rhs == if q.hasSeparator then long else short;
  }

  // ---------------------------------------------------------------- labelled graphs

  /** Where an or-node stands: rule, dot position after the last symbol matched, first and last earleme. */
  datatype Label = Label(irl: nat, position: nat, origin: nat, end: nat)

  /** What an and-node without a cause or-node has in its place. */
  datatype Tok = Read(symbol: nat, value: int) | Empty(symbol: nat)

  datatype Labelled = Labelled(b: Bocage, codes: seq<Code>, start: nat, labels: seq<Label>, toks: seq<seq<Tok>>)

  ghost predicate CodesOk(a: Labelled) {
    && a.start < |a.codes|
    && a.codes[a.start].virtualLhs && |a.codes[a.start].irl.rhs| == 1 && !a.codes[a.start].irl.rhs[0].Virtual?
    && forall i | 0 <= i < |a.codes| ::
         && Counted(a.codes[i].irl)
         && (i != a.start ==> a.codes[i].virtualLhs == a.codes[i].irl.lhs.Virtual?)
         && a.codes[a.start].irl.lhs !in a.codes[i].irl.rhs
  }

  /** The rule of an or-node. */
  function CodeOf(a: Labelled, o: nat): Code
    requires o < |a.labels| && a.labels[o].irl < |a.codes|
  {
    a.codes[a.labels[o].irl]
  }

  predicate OrOk(a: Labelled, o: nat) {
    && o < |a.b.ors| && o < |a.labels| && o < |a.toks| && |a.toks[o]| == |a.b.ors[o].ands|
    && a.labels[o].irl < |a.codes|
    && 1 <= a.labels[o].position <= |CodeOf(a, o).irl.rhs|
  }

  predicate Complete(a: Labelled, o: nat)
    requires OrOk(a, o)
  {
    a.labels[o].position == |CodeOf(a, o).irl.rhs|
  }

  /** An and-node extends its predecessor, absent only at the first symbol, by that symbol. */
  ghost predicate AndLabelled(a: Labelled, o: nat, k: nat)
    requires OrOk(a, o) && k < |a.b.ors[o].ands|
  {
    var l, and := a.labels[o], a.b.ors[o].ands[k];
    var symbol := CodeOf(a, o).irl.rhs[l.position - 1];
    && (if l.position == 1 then and.predecessor == None
        else
          && and.predecessor.Some? && OrOk(a, and.predecessor.value)
          && a.labels[and.predecessor.value].irl == l.irl && a.labels[and.predecessor.value].position == l.position - 1)
    && (if and.cause.Some?
        then OrOk(a, and.cause.value) && Complete(a, and.cause.value) && CodeOf(a, and.cause.value).irl.lhs == symbol
        else symbol == match a.toks[o][k] case Read(s, _) => Proper(s) case Empty(s) => Nulled(s))
    && AndSpanned(a, o, k)
  }

  /** The predecessor begins where the or-node does, and the symbol covers what is left of its span; for an empty symbol
      nothing is left. */
  ghost predicate AndSpanned(a: Labelled, o: nat, k: nat)
    requires OrOk(a, o) && k < |a.b.ors[o].ands|
    requires a.b.ors[o].ands[k].predecessor.Some? ==> OrOk(a, a.b.ors[o].ands[k].predecessor.value)
    requires a.b.ors[o].ands[k].cause.Some? ==> OrOk(a, a.b.ors[o].ands[k].cause.value)
  {
    var l, and := a.labels[o], a.b.ors[o].ands[k];
    && (and.predecessor.Some? ==> a.labels[and.predecessor.value].origin == l.origin)
    && var middle := if and.predecessor.Some? then a.labels[and.predecessor.value].end else l.origin;
       if and.cause.Some? then a.labels[and.cause.value].origin == middle && a.labels[and.cause.value].end == l.end
       else a.toks[o][k].Empty? ==> middle == l.end
  }

  ghost predicate LabelledOk(a: Labelled) {
    && CodesOk(a)
    && a.b.top < |a.b.ors| == |a.labels| && (OrOk(a, a.b.top) ==> a.labels[a.b.top].irl == a.start)
    && forall o: nat | o < |a.b.ors| ::
         OrOk(a, o) && forall k: nat | k < |a.b.ors[o].ands| :: AndLabelled(a, o, k)
  }

  /** A tree of the graph. */
  ghost predicate Rooted(a: Labelled, t: PTree) {
    LabelledOk(a) && FitsOne(a.b, t.or, t)
  }

  ghost predicate AllRooted(a: Labelled, f: seq<PTree>) {
    forall k | 0 <= k < |f| :: Rooted(a, f[k])
  }

  ghost function AndAt(a: Labelled, t: PTree): And
    requires Rooted(a, t)
  {
    a.b.ors[t.or].ands[t.choice]
  }

  ghost function CauseTree(a: Labelled, t: PTree): (c: PTree)
    requires Rooted(a, t) && AndAt(a, t).cause.Some?
    ensures c < t && Rooted(a, c) && c.or == AndAt(a, t).cause.value
    ensures t.children != [] && c == t.children[0]
  {
    RootedChildren(a, t);
    t.children[0]
  }

  ghost function PredecessorTree(a: Labelled, t: PTree): (p: PTree)
    requires Rooted(a, t) && AndAt(a, t).predecessor.Some?
    ensures p < t && Rooted(a, p) && p.or == AndAt(a, t).predecessor.value
    ensures t.children != [] && p == t.children[|t.children| - 1]
  {
    RootedChildren(a, t);
    t.children[|t.children| - 1]
  }

  lemma RootedChildren(a: Labelled, t: PTree)
    requires Rooted(a, t)
    ensures |t.children| == |Children(AndAt(a, t))| && AllRooted(a, t.children)
    ensures forall k | 0 <= k < |t.children| :: t.children[k].or == Children(AndAt(a, t))[k]
  {
    FitsEach(a.b, Children(AndAt(a, t)), t.children);
  }

  lemma FitsEach(b: Bocage, agenda: seq<nat>, f: seq<PTree>)
    requires Fits(b, agenda, f)
    ensures |f| == |agenda| && forall k | 0 <= k < |f| :: FitsOne(b, agenda[k], f[k])
  {
    if f != [] {
      FitsEach(b, agenda[1..], f[1..]);
      forall k | 1 <= k < |f| ensures FitsOne(b, agenda[k], f[k]) {
        assert f[k] == f[1..][k - 1] && agenda[k] == agenda[1..][k - 1];
      }
    }
  }

  // ---------------------------------------------------------------- values

  /** Values as terms: what was read, what was empty, and a rule of the original grammar applied to the
      values of its right-hand side. */
  datatype Value =
    | Token(symbol: nat, value: int, start: nat, end: nat)
    | Null(symbol: nat, at: nat)
    | Applied(rule: nat, args: seq<Value>, start: nat, end: nat)

  predicate HasAnd(a: Labelled, o: nat, k: nat) {
    && OrOk(a, o) && k < |a.b.ors[o].ands|
    && (a.b.ors[o].ands[k].predecessor.Some? ==> a.b.ors[o].ands[k].predecessor.value < |a.labels|)
  }

  /** Where a token starts: where its predecessor ended. */
  function StartOf(a: Labelled, o: nat, k: nat): nat
    requires HasAnd(a, o, k)
  {
    var p := a.b.ors[o].ands[k].predecessor;
    if p.Some? then a.labels[p.value].end else a.labels[o].origin
  }

  ghost function TokValue(a: Labelled, o: nat, k: nat): Value
    requires HasAnd(a, o, k)
  {
    match a.toks[o][k]
    case Read(symbol, value) => Token(symbol, value, StartOf(a, o, k), a.labels[o].end)
    case Empty(symbol) => Null(symbol, a.labels[o].end)
  }

  lemma RootedOr(a: Labelled, t: PTree)
    requires Rooted(a, t)
    ensures OrOk(a, t.or) && t.choice < |a.b.ors[t.or].ands| && AndLabelled(a, t.or, t.choice)
    ensures HasAnd(a, t.or, t.choice)
  {
  }

  /** The values of the symbols matched so far, with virtual symbols opened up in place. */
  ghost function Matched(a: Labelled, t: PTree): (vs: seq<Value>)
    requires Rooted(a, t)
    ensures vs != []
    decreases t, 0
  {
    RootedOr(a, t);
    (if AndAt(a, t).predecessor.Some? then Values(a, PredecessorTree(a, t)) else [])
    + if AndAt(a, t).cause.Some? then Values(a, CauseTree(a, t)) else [TokValue(a, t.or, t.choice)]
  }

  /** A complete rule of the original grammar is one value; the pieces of one are as many as they match. */
  ghost function Values(a: Labelled, t: PTree): (vs: seq<Value>)
    requires Rooted(a, t)
    ensures vs != []
    decreases t, 1
  {
    if Complete(a, t.or) && !CodeOf(a, t.or).virtualLhs
    then [Applied(CodeOf(a, t.or).rule, Matched(a, t), a.labels[t.or].origin, a.labels[t.or].end)]
    else Matched(a, t)
  }

  // ---------------------------------------------------------------- programs

  datatype Step =
    | TokenStep(symbol: nat, value: int, start: nat, end: nat, result: nat)
    | NullingStep(symbol: nat, at: nat, result: nat)
    | RuleStep(rule: nat, start: nat, end: nat, arg0: nat, argN: nat)

  /** The step for the token of an and-node, its value to go to slot `base`. */
  ghost function TokStep(a: Labelled, o: nat, k: nat, base: nat): Step
    requires HasAnd(a, o, k)
  {
    match a.toks[o][k]
    case Read(symbol, value) => TokenStep(symbol, value, StartOf(a, o, k), a.labels[o].end, base)
    case Empty(symbol) => NullingStep(symbol, a.labels[o].end, base)
  }

  /** The program for what an or-node matched: the predecessor's, then the cause's or the token. */
  ghost function MatchProgram(a: Labelled, t: PTree, base: nat): seq<Step>
    requires Rooted(a, t)
    decreases t, 0
  {
    RootedOr(a, t);
    var slot := base + if AndAt(a, t).predecessor.Some? then |Values(a, PredecessorTree(a, t))| else 0;
    (if AndAt(a, t).predecessor.Some? then Program(a, PredecessorTree(a, t), base) else [])
    + if AndAt(a, t).cause.Some? then Program(a, CauseTree(a, t), slot) else [TokStep(a, t.or, t.choice, slot)]
  }

  /** The program for a tree whose values go to the stack slots from `base` on. A rule step covers exactly the
      slots of the values its rule matched. */
  ghost function Program(a: Labelled, t: PTree, base: nat): seq<Step>
    requires Rooted(a, t)
    decreases t, 1
  {
    MatchProgram(a, t, base)
    + if Complete(a, t.or) && !CodeOf(a, t.or).virtualLhs
      then [RuleStep(CodeOf(a, t.or).rule, a.labels[t.or].origin, a.labels[t.or].end, base, base + |Matched(a, t)| - 1)]
      else []
  }

  /** The application's stack: any slot may hold anything. */
  type Slots = map<nat, Value>

  function Get(m: Slots, k: nat): Value {
    if k in m then m[k] else Null(0, 0)
  }

  /** Do as a step says. */
  function Apply(m: Slots, s: Step): Slots {
    match s
    case TokenStep(symbol, value, start, end, result) => m[result := Token(symbol, value, start, end)]
    case NullingStep(symbol, at, result) => m[result := Null(symbol, at)]
    case RuleStep(rule, start, end, arg0, argN) =>
      var args := if arg0 <= argN then seq(argN - arg0 + 1, k requires 0 <= k => Get(m, arg0 + k)) else [];
      m[arg0 := Applied(rule, args, start, end)]
  }

  ghost function ApplyAll(m: Slots, p: seq<Step>): Slots
    decreases |p|
  {
    if p == [] then m else ApplyAll(Apply(m, p[0]), p[1..])
  }

  ghost predicate Holds(m: Slots, vs: seq<Value>) {
    forall k | 0 <= k < |vs| :: k in m && m[k] == vs[k]
  }

  lemma {:induction false} ApplyAppend(m: Slots, p: seq<Step>, q: seq<Step>)
    ensures ApplyAll(m, p + q) == ApplyAll(ApplyAll(m, p), q)
    decreases |p|
  {
    if p == [] {
      assert p + q == q;
    } else {
      assert (p + q)[1..] == p[1..] + q && (p + q)[0] == p[0];
      ApplyAppend(Apply(m, p[0]), p[1..], q);
    }
  }

  lemma ApplyRule(m: Slots, vs: seq<Value>, args: seq<Value>, rule: nat, start: nat, end: nat)
    requires Holds(m, vs + args) && args != []
    ensures Holds(Apply(m, RuleStep(rule, start, end, |vs|, |vs| + |args| - 1)), vs + [Applied(rule, args, start, end)])
  {
    var all := vs + args;
    var got := seq(|args|, k requires 0 <= k => Get(m, |vs| + k));
    forall k | 0 <= k < |args| ensures got[k] == args[k] {
      assert all[|vs| + k] == args[k];
      assert |vs| + k in m && Get(m, |vs| + k) == all[|vs| + k];
      assert got[k] == Get(m, |vs| + k);
    }
    assert got == args;
    var m' := Apply(m, RuleStep(rule, start, end, |vs|, |vs| + |args| - 1));
    forall k | 0 <= k < |vs| ensures k in m' && m'[k] == vs[k] {
      assert all[k] == vs[k];
    }
  }

  lemma {:induction false} MatchIsRight(a: Labelled, t: PTree, m: Slots, vs: seq<Value>)
    requires Rooted(a, t) && Holds(m, vs)
    ensures Holds(ApplyAll(m, MatchProgram(a, t, |vs|)), vs + Matched(a, t))
    decreases t, 0
  {
    hide Rooted, AndAt, Apply, ApplyAll, Holds, Program, Values, HasAnd;
    RootedOr(a, t);
    var p, q, vs1 := [], [TokStep(a, t.or, t.choice, |vs|)], vs;
    if AndAt(a, t).predecessor.Some? {
      var left := PredecessorTree(a, t);
      ProgramIsRight(a, left, m, vs);
      p, vs1 := Program(a, left, |vs|), vs + Values(a, left);
    } else {
      ApplyNone(m);
    }
    if AndAt(a, t).cause.Some? {
      var right := CauseTree(a, t);
      ProgramIsRight(a, right, ApplyAll(m, p), vs1);
      q := Program(a, right, |vs1|);
      assert vs1 + Values(a, right) == vs + Matched(a, t);
    } else {
      ApplyTok(a, t, ApplyAll(m, p), vs1);
      q := [TokStep(a, t.or, t.choice, |vs1|)];
      assert vs1 + [TokValue(a, t.or, t.choice)] == vs + Matched(a, t);
    }
    ApplyAppend(m, p, q);
    assert MatchProgram(a, t, |vs|) == p + q;
  }

  /** The program is right: on a stack that holds `vs` it leaves `vs` and then the values of the tree. */
  lemma {:induction false} ProgramIsRight(a: Labelled, t: PTree, m: Slots, vs: seq<Value>)
    requires Rooted(a, t) && Holds(m, vs)
    ensures Holds(ApplyAll(m, Program(a, t, |vs|)), vs + Values(a, t))
    decreases t, 1
  {
    hide Rooted, Apply, ApplyAll, Holds, MatchProgram, Matched;
    assert OrOk(a, t.or) by { RootedOr(a, t); }
    MatchIsRight(a, t, m, vs);
    var l, c, p := a.labels[t.or], CodeOf(a, t.or), MatchProgram(a, t, |vs|);
    if Complete(a, t.or) && !c.virtualLhs {
      ApplyRule(ApplyAll(m, p), vs, Matched(a, t), c.rule, l.origin, l.end);
      var last := RuleStep(c.rule, l.origin, l.end, |vs|, |vs| + |Matched(a, t)| - 1);
      ApplyAppend(m, p, [last]);
      ApplyOne(ApplyAll(m, p), last);
    } else {
      assert p + [] == p;
    }
  }

  lemma ApplyNone(m: Slots)
    ensures ApplyAll(m, []) == m
  {
  }

  lemma ApplyOne(m: Slots, s: Step)
    ensures ApplyAll(m, [s]) == Apply(m, s)
  {
    assert [s][1..] == [];
  }

  lemma ApplyTok(a: Labelled, t: PTree, m: Slots, vs: seq<Value>)
    requires HasAnd(a, t.or, t.choice) && Holds(m, vs)
    ensures Holds(ApplyAll(m, [TokStep(a, t.or, t.choice, |vs|)]), vs + [TokValue(a, t.or, t.choice)])
  {
    ApplyOne(m, TokStep(a, t.or, t.choice, |vs|));
  }
}
