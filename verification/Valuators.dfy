/** The valuator: it walks the iterator's stack backwards and turns it into steps of a stack machine. */
module Valuators {
  import opened Chaf
  import opened Trees
  import opened TreeIterators
  import opened ParseTrees
  import opened Valuations

  /** How far a backward walk has come: stack slots filled, symbols counted for the virtual rules still open,
      steps made. */
  datatype Walk = Walk(size: nat, counts: seq<nat>, steps: seq<Step>)

  function TopCount(counts: seq<nat>): nat {
    if counts == [] then 0 else counts[|counts| - 1]
  }

  function Popped(counts: seq<nat>): seq<nat> {
    if counts == [] then [] else counts[..|counts| - 1]
  }

  /** The symbols of the original rule that end with this node. */
  function Extent(a: Labelled, o: nat, counts: seq<nat>): nat
    requires OrOk(a, o)
  {
    var irl := CodeOf(a, o).irl;
    if VirtualRhs(irl) then irl.realCount + TopCount(counts) else |irl.rhs|
  }

  ghost function Taken(a: Labelled, p: Pick, w: Walk): Walk
    requires HasAnd(a, p.or, p.choice)
  {
    if a.b.ors[p.or].ands[p.choice].cause.Some? then w
    else Walk(w.size + 1, w.counts, w.steps + [TokStep(a, p.or, p.choice, w.size)])
  }

  ghost function Closed(a: Labelled, o: nat, w: Walk): Walk
    requires OrOk(a, o)
  {
    var c, n := CodeOf(a, o), Extent(a, o, w.counts);
    if !Complete(a, o) then w
    else if c.virtualLhs then
      if VirtualRhs(c.irl) then w.(counts := Popped(w.counts) + [TopCount(w.counts) + c.irl.realCount])
      else w.(counts := w.counts + [c.irl.realCount])
    else if 0 < n <= w.size then
      Walk(w.size - n + 1, if VirtualRhs(c.irl) then Popped(w.counts) else w.counts,
           w.steps + [RuleStep(c.rule, a.labels[o].origin, a.labels[o].end, w.size - n, w.size - 1)])
    else w
  }

  ghost predicate PicksOk(a: Labelled, picks: seq<Pick>) {
    forall k | 0 <= k < |picks| :: HasAnd(a, picks[k].or, picks[k].choice)
  }

  /** The walk over a list of nodes, last node first. */
  ghost function Walked(a: Labelled, picks: seq<Pick>, w: Walk): Walk
    requires PicksOk(a, picks)
    decreases |picks|
  {
    if picks == [] then w
    else Closed(a, picks[0].or, Taken(a, picks[0], Walked(a, picks[1..], w)))
  }

  lemma {:induction false} WalkedAppend(a: Labelled, p: seq<Pick>, q: seq<Pick>, w: Walk)
    requires PicksOk(a, p) && PicksOk(a, q)
    ensures PicksOk(a, p + q) && Walked(a, p + q, w) == Walked(a, p, Walked(a, q, w))
    decreases |p|
  {
    if p == [] {
      assert p + q == q;
    } else {
      assert (p + q)[1..] == p[1..] + q && (p + q)[0] == p[0];
      WalkedAppend(a, p[1..], q, w);
    }
  }

  // ---------------------------------------------------------------- what a subtree adds

  ghost function Sum(s: seq<nat>): nat {
    if s == [] then 0 else s[0] + Sum(s[1..])
  }

  lemma SumOne(s: seq<nat>)
    requires |s| == 1
    ensures Sum(s) == s[0] && s == [s[0]]
  {
  }

  lemma SumAppend(s: seq<nat>, t: seq<nat>)
    ensures Sum(s + t) == Sum(s) + Sum(t)
  {
    if s == [] {
      assert s + t == t;
    } else {
      assert (s + t)[1..] == s[1..] + t;
      SumAppend(s[1..], t);
    }
  }

  /** The counts of the virtual symbols among those matched so far: at most one. */
  ghost function Open(a: Labelled, t: PTree): seq<nat>
    requires Rooted(a, t)
    decreases t, 0
  {
    (if AndAt(a, t).predecessor.Some? then Counts(a, PredecessorTree(a, t)) else [])
    + if AndAt(a, t).cause.Some? then Counts(a, CauseTree(a, t)) else []
  }

  /** What a tree leaves on the virtual stack. */
  ghost function Counts(a: Labelled, t: PTree): seq<nat>
    requires Rooted(a, t)
    decreases t, 1
  {
    RootedOr(a, t);
    if !Complete(a, t.or) then Open(a, t)
    else if CodeOf(a, t.or).virtualLhs then [|Matched(a, t)|] else []
  }

  lemma VirtualsNext(rhs: seq<Nsy>, n: nat)
    requires n < |rhs|
    ensures Virtuals(rhs[..n + 1]) == Virtuals(rhs[..n]) + if rhs[n].Virtual? then 1 else 0
  {
    assert rhs[..n + 1][..n] == rhs[..n];
  }

  /** A virtual symbol stands for as many values as it counts, any other for one. */
  lemma {:induction false} OpenCounts(a: Labelled, t: PTree)
    requires Rooted(a, t)
    ensures OrOk(a, t.or)
    ensures var p, rhs := a.labels[t.or].position, CodeOf(a, t.or).irl.rhs;
            && |Open(a, t)| == Virtuals(rhs[..p])
            && |Matched(a, t)| + |Open(a, t)| == p + Sum(Open(a, t))
    decreases t
  {
    hide Rooted, FitsOne, LabelledOk, Virtuals;
    RootedOr(a, t);
    var p, rhs, and := a.labels[t.or].position, CodeOf(a, t.or).irl.rhs, AndAt(a, t);
    VirtualsNext(rhs, p - 1);
    var left, right := [], [];
    if and.predecessor.Some? {
      var u := PredecessorTree(a, t);
      OpenCounts(a, u);
      left := Counts(a, u);
    } else {
      assert rhs[..0] == [];
      assert Virtuals(rhs[..0]) == 0 by { NoVirtuals(rhs[..0]); }
    }
    if and.cause.Some? {
      var u := CauseTree(a, t);
      RootedOr(a, u);
      CauseVirtual(a, t);
      right := Counts(a, u);
      if right != [] { SumOne(right); }
    } else {
      CauseVirtual(a, t);
    }
    SumAppend(left, right);
  }

  /** A cause is virtual when the symbol it matches is; a token matches no virtual symbol. */
  lemma CauseVirtual(a: Labelled, t: PTree)
    requires Rooted(a, t)
    ensures OrOk(a, t.or)
    ensures var symbol := CodeOf(a, t.or).irl.rhs[a.labels[t.or].position - 1];
            if AndAt(a, t).cause.Some?
            then
              var u := CauseTree(a, t);
              OrOk(a, u.or) && Complete(a, u.or) && CodeOf(a, u.or).virtualLhs == symbol.Virtual?
            else !symbol.Virtual?
  {
    RootedOr(a, t);
    var l := a.labels[t.or];
    if AndAt(a, t).cause.Some? {
      var u := CauseTree(a, t);
      RootedOr(a, u);
      assert CodeOf(a, u.or).irl.lhs == a.codes[l.irl].irl.rhs[l.position - 1];
    }
  }

  /** At the end of a rule the virtual stack holds just what the count needs. */
  lemma ExtentIsMatched(a: Labelled, t: PTree, w: Walk)
    requires Rooted(a, t) && OrOk(a, t.or) && Complete(a, t.or)
    ensures VirtualRhs(CodeOf(a, t.or).irl) == (Open(a, t) != []) && |Open(a, t)| <= 1
    ensures Extent(a, t.or, w.counts + Open(a, t)) == |Matched(a, t)|
    ensures !VirtualRhs(CodeOf(a, t.or).irl) ==> CodeOf(a, t.or).irl.realCount == |Matched(a, t)|
  {
    OpenCounts(a, t);
    var irl := CodeOf(a, t.or).irl;
    assert Counted(irl);
    assert irl.rhs[..|irl.rhs|] == irl.rhs;
    if |Open(a, t)| == 1 { SumOne(Open(a, t)); }
  }

  ghost predicate Grew(a: Labelled, t: PTree, w: Walk, v: Walk)
    requires Rooted(a, t)
  {
    v == Walk(w.size + |Values(a, t)|, w.counts + Counts(a, t), w.steps + Program(a, t, w.size))
  }

  lemma CloseGrows(a: Labelled, t: PTree, w: Walk)
    requires Rooted(a, t)
    ensures OrOk(a, t.or)
    ensures var v := Walk(w.size + |Matched(a, t)|, w.counts + Open(a, t), w.steps + MatchProgram(a, t, w.size));
            Grew(a, t, w, Closed(a, t.or, v))
  {
    hide Rooted, Matched, MatchProgram, Open;
    RootedOr(a, t);
    var v := Walk(w.size + |Matched(a, t)|, w.counts + Open(a, t), w.steps + MatchProgram(a, t, w.size));
    if Complete(a, t.or) {
      ExtentIsMatched(a, t, w);
      var c := CodeOf(a, t.or);
      if Open(a, t) != [] {
        assert v.counts == w.counts + [Open(a, t)[0]];
        assert Popped(v.counts) == w.counts;
      } else {
        assert v.counts == w.counts;
      }
    }
  }

  lemma RootedNodes(a: Labelled, f: seq<PTree>)
    requires AllRooted(a, f)
    ensures PicksOk(a, Nodes(f))
    decreases f
  {
    if f != [] {
      RootedOr(a, f[0]);
      RootedChildren(a, f[0]);
      RootedNodes(a, f[0].children);
      RootedNodes(a, f[1..]);
    }
  }

  /** The children of a node, cause before predecessor. */
  lemma ChildrenNodes(a: Labelled, t: PTree)
    requires Rooted(a, t)
    ensures Nodes(t.children) ==
              (if AndAt(a, t).cause.Some? then Nodes([CauseTree(a, t)]) else [])
              + if AndAt(a, t).predecessor.Some? then Nodes([PredecessorTree(a, t)]) else []
  {
    RootedChildren(a, t);
    var and := AndAt(a, t);
    var c := if and.cause.Some? then [CauseTree(a, t)] else [];
    var p := if and.predecessor.Some? then [PredecessorTree(a, t)] else [];
    assert t.children == c + p;
    NodesAppend(c, p);
  }

  lemma NodesOne(t: PTree)
    ensures Nodes([t]) == [Pick(t.or, t.choice)] + Nodes(t.children)
  {
    assert [t][1..] == [];
  }

  /** Walking a subtree backwards adds its values, its counts and its program. */
  lemma {:induction false} WalkTree(a: Labelled, t: PTree, w: Walk)
    requires Rooted(a, t)
    ensures PicksOk(a, Nodes([t])) && Grew(a, t, w, Walked(a, Nodes([t]), w))
    decreases t, 1
  {
    hide Rooted, Closed, Taken, Grew, Matched, MatchProgram, Open, HasAnd;
    NodesOne(t);
    RootedOr(a, t);
    WalkChildren(a, t, w);
    var picks := Nodes([t]);
    assert picks[1..] == Nodes(t.children) && picks[0] == Pick(t.or, t.choice);
    CloseGrows(a, t, w);
  }

  /** What the predecessor adds. */
  ghost function Led(a: Labelled, t: PTree, w: Walk): Walk
    requires Rooted(a, t)
  {
    if AndAt(a, t).predecessor.Some? then
      var u := PredecessorTree(a, t);
      Walk(w.size + |Values(a, u)|, w.counts + Counts(a, u), w.steps + Program(a, u, w.size))
    else w
  }

  /** What the cause or the token adds to that. */
  ghost function Caused(a: Labelled, t: PTree, w: Walk): Walk
    requires Rooted(a, t)
  {
    RootedOr(a, t);
    if AndAt(a, t).cause.Some? then
      var u := CauseTree(a, t);
      Walk(w.size + |Values(a, u)|, w.counts + Counts(a, u), w.steps + Program(a, u, w.size))
    else Walk(w.size + 1, w.counts, w.steps + [TokStep(a, t.or, t.choice, w.size)])
  }

  lemma LedThenCaused(a: Labelled, t: PTree, w: Walk)
    requires Rooted(a, t)
    ensures Caused(a, t, Led(a, t, w))
         == Walk(w.size + |Matched(a, t)|, w.counts + Open(a, t), w.steps + MatchProgram(a, t, w.size))
  {
    hide Rooted, Values, Program, Counts, TokStep, AndAt;
    RootedOr(a, t);
    if AndAt(a, t).predecessor.Some? {
      LedStep(a, t, w);
    } else {
      assert w.counts + [] == w.counts && w.steps + [] == w.steps;
    }
  }

  lemma LedStep(a: Labelled, t: PTree, w: Walk)
    requires Rooted(a, t) && AndAt(a, t).predecessor.Some?
    ensures Caused(a, t, Led(a, t, w))
         == Walk(w.size + |Matched(a, t)|, w.counts + Open(a, t), w.steps + MatchProgram(a, t, w.size))
  {
    hide Rooted, Values, Program, Counts, TokStep, AndAt;
    RootedOr(a, t);
    var u := PredecessorTree(a, t);
    var more := Caused(a, t, Walk(w.size + |Values(a, u)|, [], []));
    Onto(w.counts, Counts(a, u), more.counts);
    Onto(w.steps, Program(a, u, w.size), more.steps);
  }

  lemma Onto<T>(a: seq<T>, b: seq<T>, c: seq<T>)
    ensures (a + b) + c == a + (b + c)
  {
  }

  lemma {:induction false} WalkChildren(a: Labelled, t: PTree, w: Walk)
    requires Rooted(a, t)
    ensures HasAnd(a, t.or, t.choice) && PicksOk(a, Nodes(t.children))
    ensures Taken(a, Pick(t.or, t.choice), Walked(a, Nodes(t.children), w))
         == Walk(w.size + |Matched(a, t)|, w.counts + Open(a, t), w.steps + MatchProgram(a, t, w.size))
    decreases t, 0
  {
    hide Rooted, Closed, Values, Program, Counts, Matched, MatchProgram, Open, TokStep, Nodes, PicksOk, HasAnd;
    RootedOr(a, t);
    ChildrenNodes(a, t);
    LedThenCaused(a, t, w);
    var p, c := [], [];
    assert PicksOk(a, []) && Walked(a, [], w) == w && Walked(a, [], Led(a, t, w)) == Led(a, t,
        w) by { WalkedNone(a, w); WalkedNone(a, Led(a, t, w)); }
    if AndAt(a, t).predecessor.Some? {
      var u := PredecessorTree(a, t);
      WalkTree(a, u, w);
      p := Nodes([u]);
    }
    if AndAt(a, t).cause.Some? {
      var u := CauseTree(a, t);
      WalkTree(a, u, Led(a, t, w));
      c := Nodes([u]);
    }
    hide Walked;
    WalkedAppend(a, c, p, w);
  }

  lemma WalkedNone(a: Labelled, w: Walk)
    ensures PicksOk(a, []) && Walked(a, [], w) == w
  {
  }

  // ---------------------------------------------------------------- the walk never gets stuck

  /** From any node on, the rest of the list is again a list of subtrees. */
  lemma {:induction false} SuffixIsForest(a: Labelled, f: seq<PTree>, k: nat) returns (h: seq<PTree>)
    requires AllRooted(a, f) && k <= |Nodes(f)|
    ensures AllRooted(a, h) && Nodes(h) == Nodes(f)[k..]
    decreases k
  {
    if k == 0 {
      h := f;
    } else {
      NodesUnfold(f);
      RootedChildren(a, f[0]);
      hide Nodes, Rooted;
      h := SuffixIsForest(a, f[0].children + f[1..], k - 1);
    }
  }

  function NoWalk(): Walk {
    Walk(0, [], [])
  }

  /** The walk over the nodes from number `k` on. */
  ghost function WalkedFrom(a: Labelled, t: PTree, k: nat): Walk
    requires Rooted(a, t) && k <= |Nodes([t])|
  {
    RootedNodes(a, [t]);
    Walked(a, Nodes([t])[k..], NoWalk())
  }

  lemma WalkedNext(a: Labelled, t: PTree, k: nat)
    requires Rooted(a, t) && k < |Nodes([t])|
    ensures var p := Nodes([t])[k];
            HasAnd(a, p.or, p.choice) && WalkedFrom(a, t, k) == Closed(a, p.or, Taken(a, p, WalkedFrom(a, t, k + 1)))
  {
    RootedNodes(a, [t]);
    var picks := Nodes([t]);
    assert picks[k..][1..] == picks[k + 1..] && picks[k..][0] == picks[k];
  }

  lemma SuffixNode(a: Labelled, t: PTree, k: nat) returns (u: PTree, rest: seq<PTree>)
    requires Rooted(a, t) && k < |Nodes([t])|
    ensures Rooted(a, u) && AllRooted(a, rest) && Nodes([t])[k] == Pick(u.or, u.choice)
    ensures PicksOk(a, Nodes(rest)) && PicksOk(a, Nodes(u.children))
    ensures WalkedFrom(a, t, k + 1) == Walked(a, Nodes(u.children), Walked(a, Nodes(rest), NoWalk()))
  {
    hide Rooted, HasAnd, Walked;
    var picks := Nodes([t]);
    var h := SuffixIsForest(a, [t], k);
    u, rest := h[0], h[1..];
    assert h == [u] + rest;
    NodesAppend([u], rest);
    NodesOne(u);
    RootedChildren(a, u);
    RootedNodes(a, u.children);
    RootedNodes(a, rest);
    assert picks[k..][0] == picks[k];
    assert picks[k + 1..] == picks[k..][1..] == Nodes(u.children) + Nodes(rest);
    WalkedAppend(a, Nodes(u.children), Nodes(rest), NoWalk());
  }

  /** When a rule ends, its count is on the virtual stack and its arguments are on the stack. */
  lemma NodeReady(a: Labelled, t: PTree, k: nat)
    requires Rooted(a, t) && k < |Nodes([t])|
    ensures var p := Nodes([t])[k];
            && HasAnd(a, p.or, p.choice)
            && var v := Taken(a, p, WalkedFrom(a, t, k + 1));
               && (Complete(a, p.or) && VirtualRhs(CodeOf(a, p.or).irl) ==> v.counts != [])
               && (Complete(a, p.or) ==> 0 < Extent(a, p.or, v.counts) <= v.size)
  {
    hide Rooted, HasAnd, Walked, WalkedFrom, Nodes, Taken, Open, Matched, MatchProgram, Extent;
    var u, rest := SuffixNode(a, t, k);
    var w := Walked(a, Nodes(rest), NoWalk());
    WalkChildren(a, u, w);
    HasAndOr(a, u.or, u.choice);
    if Complete(a, u.or) {
      ExtentIsMatched(a, u, w);
      MatchedSome(a, u);
    }
  }

  lemma MatchedSome(a: Labelled, t: PTree)
    requires Rooted(a, t)
    ensures Matched(a, t) != []
  {
  }

  lemma WalkedAll(a: Labelled, t: PTree)
    requires Rooted(a, t)
    ensures WalkedFrom(a, t, |Nodes([t])|) == NoWalk()
    ensures WalkedFrom(a, t, 0).steps == Program(a, t, 0)
  {
    RootedNodes(a, [t]);
    WalkTree(a, t, NoWalk());
    assert Nodes([t])[0..] == Nodes([t]);
    assert [] + Program(a, t, 0) == Program(a, t, 0);
  }

  /** The tree of the top or-node has one value. */
  lemma TopValue(a: Labelled, t: PTree)
    requires Rooted(a, t) && t.or == a.b.top
    ensures |Values(a, t)| == 1
  {
    OpenCounts(a, t);
    RootedOr(a, t);
    var rhs := CodeOf(a, t.or).irl.rhs;
    assert rhs[..1] == rhs;
    assert rhs[..0] == [] && Virtuals(rhs) == 0;
  }

  // ---------------------------------------------------------------- the valuator

  /** What the next call starts with. A token phase falls through to the rule phase, and that to the next node. */
  datatype Phase = Initial | GetData | TokenPhase | RulePhase | Inactive

  datatype TokenType = DummyToken | ValuedToken | NullingToken

  datatype StepKind = NoStep | TokenKind | NullingKind | RuleKind

  class Valuator {
    const a: Labelled
    const nooks: seq<Nook>
    const isNulling: bool
    const startSymbol: nat
    ghost const tree: PTree
    var next: Phase
    var nook: int
    var arg0: int
    var argN: int
    var virtualStack: seq<nat>
    var tokenType: TokenType
    var symbol: int
    var tokenValue: int
    var tokenStart: int
    var rule: int
    var ruleStart: int
    var ysId: int
    var result: int
    /** The steps taken so far. */
    ghost var done: seq<Step>

    ghost predicate IsTreeOf() {
      Rooted(a, tree) && tree.or == a.b.top && Picks(nooks) == Nodes([tree])
    }

    ghost predicate TokenReady()
      reads this
    {
      tokenType != DummyToken ==> symbol >= 0 && tokenStart >= 0 && ysId >= 0 && argN >= 0
    }

    ghost predicate RuleReady()
      reads this
    {
      rule >= 0 ==> ruleStart >= 0 && ysId >= 0 && 0 <= arg0 <= argN
    }

    ghost function TheToken(): seq<Step>
      reads this
      requires TokenReady()
    {
      match tokenType
      case DummyToken => []
      case ValuedToken => [TokenStep(symbol, tokenValue, tokenStart, ysId, argN)]
      case NullingToken => [NullingStep(symbol, tokenStart, argN)]
    }

    ghost function TheRule(): seq<Step>
      reads this
      requires RuleReady()
    {
      if rule >= 0 then [RuleStep(rule, ruleStart, ysId, arg0, argN)] else []
    }

    /** The steps of the current node still to be taken. */
    ghost function Pending(): seq<Step>
      reads this
      requires TokenReady() && RuleReady()
    {
      if next == TokenPhase then TheToken() + TheRule()
      else if next == RulePhase then TheRule() else []
    }

    /** The walk down to node `k` is what the fields say. */
    ghost predicate At(k: nat)
      reads this
      requires IsTreeOf() && k <= |nooks|
    {
      && TokenReady() && RuleReady()
      && var w := WalkedFrom(a, tree, k);
         w.size == arg0 + 1 && w.counts == virtualStack && w.steps == done + Pending()
    }

    ghost predicate Valid()
      reads this
    {
      if isNulling then NullingOk() else WalkOk()
    }

    /** The tree of a nulling parse is one null of the start symbol. */
    ghost predicate NullingOk()
      reads this
    {
      && isNulling && nooks == [] && (next == Initial || next == Inactive)
      && done == if next == Initial then [] else NullTree()
    }

    ghost predicate WalkOk()
      reads this
    {
      && !isNulling && IsTreeOf()
      && -1 <= nook < |nooks|
      && match next
         case Initial => nook == -1 && At(|nooks|)
         case Inactive => done == Program(a, tree, 0)
         case _ => nook >= 0 && At(nook)
    }

    ghost function NullTree(): seq<Step> {
      [NullingStep(startSymbol, 0, 0)]
    }

    /** All the steps there are. */
    ghost function Whole(): seq<Step>
      reads this
      requires Valid()
    {
      if isNulling then NullTree() else Program(a, tree, 0)
    }

    ghost function Ahead(): nat
      reads this
      requires Valid()
    {
      match next
      case Initial => 3 * |nooks| + 1
      case Inactive => 0
      case TokenPhase => 3 * nook + 3
      case RulePhase => 3 * nook + 2
      case GetData => 3 * nook + 1
    }

    constructor (a: Labelled, nooks: seq<Nook>, ghost tree: PTree)
      requires Rooted(a, tree) && tree.or == a.b.top && Picks(nooks) == Nodes([tree])
      ensures Valid() && done == [] && next == Initial && !isNulling
      ensures this.a == a && this.nooks == nooks && this.tree == tree
    {
      this.a, this.nooks, this.tree, isNulling, startSymbol := a, nooks, tree, false, 0;
      next, nook, arg0, argN, virtualStack := Initial, -1, -1, -1, [];
      tokenType, symbol, tokenValue, tokenStart := DummyToken, -1, -1, -1;
      rule, ruleStart, ysId, result, done := -1, -1, -1, -1, [];
      new;
      WalkedAll(a, tree);
    }

    constructor Nulling(a: Labelled, startSymbol: nat)
      ensures Valid() && done == [] && next == Initial && isNulling
      ensures this.a == a && this.startSymbol == startSymbol
    {
      this.a, nooks, tree, isNulling, this.startSymbol := a, [], PTree.Node(0, 0, []), true, startSymbol;
      next, nook, arg0, argN, virtualStack := Initial, -1, -1, -1, [];
      tokenType, symbol, tokenValue, tokenStart := DummyToken, -1, -1, -1;
      rule, ruleStart, ysId, result, done := -1, -1, -1, -1, [];
    }

    /** Look for a token at a node: it gets the next free slot. */
    method TakeToken(or: nat, choice: nat)
      requires HasAnd(a, or, choice) && argN >= -1 && arg0 == argN && ysId == a.labels[or].end
      modifies `tokenType, `symbol, `tokenValue, `tokenStart, `arg0, `argN
      ensures TokenReady() && arg0 == argN
      ensures if a.b.ors[or].ands[choice].cause.Some?
              then tokenType == DummyToken && argN == old(argN)
              else argN == old(argN) + 1 && TheToken() == [TokStep(a, or, choice, argN)]
    {
      if a.b.ors[or].ands[choice].cause.Some? {
        tokenType := DummyToken;
        return;
      }
      argN := argN + 1;
      arg0 := argN;
      match a.toks[or][choice] {
        case Read(s, value) =>
          tokenType, symbol, tokenValue := ValuedToken, s, value;
          tokenStart := StartOf(a, or, choice);
        case Empty(s) =>
          tokenType, symbol := NullingToken, s;
          tokenStart := ysId;
      }
    }

    /** At the end of an internal rule: count for the rule it is a piece of, or close that rule. */
    method EndRule(or: nat)
      requires OrOk(a, or) && argN >= -1
      requires VirtualRhs(CodeOf(a, or).irl) ==> virtualStack != []
      requires 0 < Extent(a, or, virtualStack) <= argN + 1
      modifies `virtualStack, `arg0, `rule, `ruleStart
      ensures var c := CodeOf(a, or);
              && virtualStack == (if VirtualRhs(c.irl) then Popped(old(virtualStack)) else old(virtualStack))
                                 + (if !c.virtualLhs then []
                                    else [c.irl.realCount + if VirtualRhs(c.irl) then TopCount(old(virtualStack))
                                        else 0])
              && (if c.virtualLhs then rule == old(rule) && arg0 == old(arg0) && ruleStart == old(ruleStart)
                  else rule == c.rule && ruleStart == a.labels[or].origin
                       && arg0 == argN - Extent(a, or, old(virtualStack)) + 1)
    {
      var c := CodeOf(a, or);
      var last := |virtualStack| - 1;
      if c.virtualLhs {
        var realCount := c.irl.realCount;
        if VirtualRhs(c.irl) {
          virtualStack := virtualStack[last := virtualStack[last] + realCount];
        } else {
          virtualStack := virtualStack + [realCount];
        }
      } else {
        var realCount := |c.irl.rhs|;
        if VirtualRhs(c.irl) {
          realCount := c.irl.realCount + virtualStack[last];
          virtualStack := virtualStack[..last];
        }
        arg0 := argN - realCount + 1;
        rule := c.rule;
        ruleStart := a.labels[or].origin;
      }
    }

    /** Take a node into the walk. */
    method VisitNode()
      requires IsTreeOf() && 0 <= nook < |nooks| && rule == -1 && arg0 == argN >= -1
      requires WalkedFrom(a, tree, nook + 1) == Walk(argN + 1, virtualStack, done)
      modifies `tokenType, `symbol, `tokenValue, `tokenStart, `arg0, `argN, `virtualStack, `rule, `ruleStart, `ysId
      ensures TokenReady() && RuleReady() && arg0 >= -1 && (rule < 0 ==> arg0 == argN)
      ensures WalkedFrom(a, tree, nook) == Walk(arg0 + 1, virtualStack, done + (TheToken() + TheRule()))
    {
      hide Rooted, Closed, Taken, HasAnd, WalkedFrom, TokStep, Extent, Nodes;
      var or, choice := nooks[nook].or, nooks[nook].choice;
      assert Picks(nooks)[nook] == Pick(or, choice);
      WalkedNext(a, tree, nook);
      NodeReady(a, tree, nook);
      HasAndOr(a, or, choice);
      ghost var w := WalkedFrom(a, tree, nook + 1);
      ysId := a.labels[or].end;
      TakeToken(or, choice);
      ghost var v := Walk(argN + 1, virtualStack, done + TheToken());
      TakenIs(a, Pick(or, choice), w, v);
      if a.labels[or].position == |CodeOf(a, or).irl.rhs| {
        ClosedIs(a, or, v);
        EndRule(or);
      } else {
        NotClosed(a, or, v);
      }
      assert done + (TheToken() + TheRule()) == v.steps + TheRule();
    }

    /** Go back to the latest node before this one that has a step to take. */
    method Fetch()
      requires WalkOk() && (next == Initial || next == GetData)
      modifies this
      ensures WalkOk() && done == old(done)
      ensures next == Inactive || (next == TokenPhase && Ahead() < old(Ahead()))
    {
      hide Rooted, WalkedFrom, Program, Nodes, Picks, TokStep;
      WalkedAll(a, tree);
      var popArguments := true;
      if nook < 0 {
        nook := |nooks|;
      }
      next := GetData;
      while true
        invariant IsTreeOf() && 0 <= nook <= |nooks| && 3 * nook + 1 <= old(Ahead())
        invariant next == GetData && done == old(done) && At(nook)
        invariant popArguments || argN == arg0
        decreases nook
      {
        tokenValue, rule := -1, -1;
        nook := nook - 1;
        if nook < 0 {
          next := Inactive;
          return;
        }
        if popArguments {
          argN := arg0;
          popArguments := false;
        }
        assert done + [] == done;
        VisitNode();
        if rule >= 0 || tokenType != DummyToken {
          next := TokenPhase;
          return;
        }
        assert TheToken() + TheRule() == [] by { NothingHere(); }
      }
    }

    /** The fields describe the step just taken, after those in `was`. */
    ghost predicate Took(kind: StepKind, was: seq<Step>)
      reads this
    {
      match kind
      case NoStep => done == was
      case TokenKind => symbol >= 0 && tokenStart >= 0 && ysId >= 0 && result >= 0
                        && done == was + [TokenStep(symbol, tokenValue, tokenStart, ysId, result)]
      case NullingKind => symbol >= 0 && tokenStart >= 0 && result >= 0
                          && done == was + [NullingStep(symbol, tokenStart, result)]
      case RuleKind => rule >= 0 && ruleStart >= 0 && ysId >= 0 && 0 <= result == arg0 <= argN
                       && done == was + [RuleStep(rule, ruleStart, ysId, arg0, argN)]
    }

    /** The token of the node, if it has one. */
    method TokenOfNode() returns (kind: StepKind)
      requires WalkOk() && next == TokenPhase
      modifies `next, `result, `done
      ensures WalkOk() && next == RulePhase && kind != RuleKind && Took(kind, old(done))
      ensures Ahead() < old(Ahead())
    {
      hide WalkedFrom, Program, Nodes, Picks, Rooted;
      ghost var rest := TheRule();
      assert done + (TheToken() + rest) == (done + TheToken()) + rest;
      next := RulePhase;
      if tokenType == DummyToken {
        assert done + TheToken() == done;
        return NoStep;
      }
      done := done + TheToken();
      result := argN;
      return if tokenType == NullingToken then NullingKind else TokenKind;
    }

    /** The rule that ends at the node, if one does. */
    method RuleOfNode() returns (kind: StepKind)
      requires WalkOk() && next == RulePhase
      modifies `next, `result, `done
      ensures WalkOk() && next == GetData && (kind == NoStep || kind == RuleKind) && Took(kind, old(done))
      ensures Ahead() < old(Ahead())
    {
      hide WalkedFrom, Program, Nodes, Picks, Rooted;
      next := GetData;
      assert forall s: seq<Step> :: s + [] == s;
      if rule < 0 {
        return NoStep;
      }
      done := done + TheRule();
      result := arg0;
      return RuleKind;
    }

    /** The one step of a nulling parse, or none when it has been taken. */
    method NullStep() returns (kind: StepKind)
      requires NullingOk()
      modifies `symbol, `tokenStart, `ysId, `result, `arg0, `argN, `next, `done
      ensures NullingOk() && next == Inactive && Took(kind, old(done))
      ensures kind == if old(next) == Initial then NullingKind else NoStep
    {
      symbol := startSymbol;
      tokenStart, ysId := 0, 0;
      result, arg0, argN := 0, 0, 0;
      kind := if next == Initial then NullingKind else NoStep;
      if next == Initial {
        done := done + NullTree();
      }
      next := Inactive;
    }

    /** The next step. The steps taken from first to last are the program of the tree. */
    method Step() returns (kind: StepKind)
      requires Valid()
      modifies this
      ensures Valid() && Took(kind, old(done))
      ensures if kind == NoStep then next == Inactive && done == Whole() else Ahead() < old(Ahead())
    {
      hide Rooted, WalkedFrom, Program, Nodes, Picks, At, Took;
      if isNulling {
        kind := NullStep();
        return;
      }
      kind := NoStep;
      assert Took(NoStep, done) by { TookNothing(); }
      while next != Inactive
        invariant WalkOk() && done == old(done) && kind == NoStep && Took(kind, done) && Ahead() <= old(Ahead())
        decreases Ahead()
      {
        if next == Initial || next == GetData {
          Fetch();
          if next == Inactive {
            break;
          }
        }
        if next == TokenPhase {
          kind := TokenOfNode();
          if kind != NoStep {
            return;
          }
          Unmoved(old(done));
        }
        kind := RuleOfNode();
        if kind != NoStep {
          return;
        }
        Unmoved(old(done));
      }
      TookNothing();
    }

    lemma ValidTree()
      requires Valid()
      ensures if isNulling then Whole() == NullTree() else IsTreeOf() && Whole() == Program(a, tree, 0)
    {
    }

    lemma TookNothing()
      ensures Took(NoStep, done)
    {
    }

    lemma Unmoved(was: seq<Step>)
      requires Took(NoStep, was)
      ensures done == was && Took(NoStep, done)
    {
    }

    lemma NothingHere()
      requires TokenReady() && RuleReady() && tokenType == DummyToken && rule < 0
      ensures TheToken() + TheRule() == []
    {
    }
  }

  lemma HasAndOr(a: Labelled, or: nat, choice: nat)
    requires HasAnd(a, or, choice)
    ensures OrOk(a, or)
  {
  }

  lemma TakenIs(a: Labelled, p: Pick, w: Walk, v: Walk)
    requires HasAnd(a, p.or, p.choice)
    requires if a.b.ors[p.or].ands[p.choice].cause.Some? then v.size == w.size && v.steps == w.steps
             else v.size == w.size + 1 && v.steps == w.steps + [TokStep(a, p.or, p.choice, w.size)]
    requires v.counts == w.counts
    ensures Taken(a, p, w) == v
  {
  }

  lemma NotClosed(a: Labelled, o: nat, w: Walk)
    requires OrOk(a, o) && !Complete(a, o)
    ensures Closed(a, o, w) == w
  {
  }

  lemma ClosedIs(a: Labelled, o: nat, w: Walk)
    requires OrOk(a, o) && Complete(a, o) && 0 < Extent(a, o, w.counts) <= w.size
    ensures var c, n, u := CodeOf(a, o), Extent(a, o, w.counts), Closed(a, o, w);
            && u.counts == (if VirtualRhs(c.irl) then Popped(w.counts) else w.counts)
                           + (if !c.virtualLhs then []
                              else [c.irl.realCount + if VirtualRhs(c.irl) then TopCount(w.counts) else 0])
            && (if c.virtualLhs then u.size == w.size && u.steps == w.steps
                else u.size == w.size - n + 1
                     && u.steps == w.steps + [RuleStep(c.rule, a.labels[o].origin, a.labels[o].end, w.size - n,
                         w.size - 1)])
  {
  }

  // ---------------------------------------------------------------- evaluation

  /** A valuator for the tree an iterator has come to. */
  method ForTree(it: TreeIterator, a: Labelled, startSymbol: nat) returns (v: Valuator)
    requires it.Valid() && !it.exhausted && it.parseCount > 0
    requires !it.isNulling ==> a.b == it.b && LabelledOk(a)
    ensures fresh(v) && v.Valid() && v.next == Initial && v.done == [] && v.a == a && v.isNulling == it.isNulling
    ensures if it.isNulling then v.startSymbol == startSymbol
            else TreeOf(a.b, v.tree) && Encode([v.tree]) == Choices(it.stack)
  {
    if it.isNulling {
      v := new Valuator.Nulling(a, startSymbol);
    } else {
      ghost var tree := StackIsTree(it.b, it.stack);
      v := new Valuator(a, it.stack, tree);
    }
  }

  /** Doing every step as it comes leaves the value of the tree in slot 0. */
  method Evaluate(v: Valuator) returns (value: Value)
    requires v.Valid() && v.next == Initial && v.done == []
    modifies v
    ensures v.Valid()
    ensures if v.isNulling then value == Null(v.startSymbol, 0) else v.IsTreeOf() && Values(v.a, v.tree) == [value]
  {
    hide Valuator.Valid, Valuator.Ahead, Valuator.Whole, Apply, Program, Values, Rooted, Holds;
    var slots: Slots := map[];
    v.ValidTree();
    ApplyNone(slots);
    var kind := RuleKind;
    while kind != NoStep
      invariant v.Valid() && slots == ApplyAll(map[], v.done)
      invariant kind == NoStep ==> v.done == v.Whole()
      decreases kind != NoStep, v.Ahead()
    {
      ghost var was := v.done;
      kind := v.Step();
      match kind {
        case NoStep =>
        case TokenKind =>
          slots := Apply(slots, TokenStep(v.symbol, v.tokenValue, v.tokenStart, v.ysId, v.result));
        case NullingKind =>
          slots := Apply(slots, NullingStep(v.symbol, v.tokenStart, v.result));
        case RuleKind =>
          slots := Apply(slots, RuleStep(v.rule, v.ruleStart, v.ysId, v.arg0, v.argN));
      }
      if kind != NoStep {
        ApplyLast(map[], was, v.done[|v.done| - 1]);
      }
    }
    value := Get(slots, 0);
    v.ValidTree();
    if v.isNulling {
      OneNull(map[], v.startSymbol);
    } else {
      SlotZero(v.a, v.tree, map[]);
    }
  }

  lemma OneNull(slots: Slots, symbol: nat)
    ensures Get(ApplyAll(slots, [NullingStep(symbol, 0, 0)]), 0) == Null(symbol, 0)
  {
    ApplyOne(slots, NullingStep(symbol, 0, 0));
  }

  lemma ApplyLast(m: Slots, p: seq<Step>, s: Step)
    ensures ApplyAll(m, p + [s]) == Apply(ApplyAll(m, p), s)
  {
    ApplyAppend(m, p, [s]);
    ApplyOne(ApplyAll(m, p), s);
  }

  /** Compiled and run, a parse tree leaves its value alone in slot 0, whatever the slots held before. */
  lemma SlotZero(a: Labelled, t: PTree, slots: Slots)
    requires Rooted(a, t) && t.or == a.b.top
    ensures Values(a, t) == [Get(ApplyAll(slots, Program(a, t, 0)), 0)]
  {
    hide Rooted, Values, Program, ApplyAll, Apply;
    var none: seq<Value> := [];
    ProgramIsRight(a, t, slots, none);
    TopValue(a, t);
    assert none + Values(a, t) == Values(a, t);
  }
}
