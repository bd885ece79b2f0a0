/** The parse-tree iterator: a depth-first search over an and/or graph, kept on an explicit stack. */
module TreeIterators {
  import opened Trees

  /** An or-node of the current tree with the and-node chosen for it. `parent` is the stack index of the nook
      it hangs from, as its cause or as its predecessor; the ready flags say which children have been seen to. */
  datatype Nook = Nook(or: nat, choice: nat, parent: int, causeReady: bool, isCause: bool, predecessorReady: bool,
      isPredecessor: bool)

  predicate NookOk(b: Bocage, n: Nook) {
    n.or < |b.ors| && n.choice < |b.ors[n.or].ands|
  }

  predicate NooksOk(b: Bocage, stack: seq<Nook>) {
    forall k | 0 <= k < |stack| :: NookOk(b, stack[k])
  }

  function AndOf(b: Bocage, n: Nook): And
    requires NookOk(b, n)
  {
    b.ors[n.or].ands[n.choice]
  }

  /** The children of a nook that still have to be added, next first. */
  ghost function Pending(b: Bocage, n: Nook): seq<nat>
    requires NookOk(b, n)
  {
    var a := AndOf(b, n);
    (if a.cause.Some? && !n.causeReady then [a.cause.value] else [])
    + (if a.predecessor.Some? && !n.predecessorReady then [a.predecessor.value] else [])
  }

  /** All pending children: those of the latest nook come first. */
  ghost function Agenda(b: Bocage, stack: seq<Nook>): seq<nat>
    requires NooksOk(b, stack)
  {
    if stack == [] then []
    else Pending(b, stack[|stack| - 1]) + Agenda(b, stack[..|stack| - 1])
  }

  /** The non-empty or-nodes of the stack. */
  ghost function Used(b: Bocage, stack: seq<Nook>): set<nat>
    requires NooksOk(b, stack)
  {
    if stack == [] then {}
    else Used(b, stack[..|stack| - 1])
         + if b.ors[stack[|stack| - 1].or].nonEmpty then {stack[|stack| - 1].or} else {}
  }

  ghost function Choices(stack: seq<Nook>): (p: seq<nat>)
    ensures |p| == |stack|
  {
    seq(|stack|, k requires 0 <= k < |stack| => stack[k].choice)
  }

  /** Take the last nook off and let its parent wait for it again. */
  function Restore(stack: seq<Nook>): seq<Nook>
    requires |stack| > 1 && 0 <= stack[|stack| - 1].parent < |stack| - 1
  {
    var n := stack[|stack| - 1];
    var p := stack[n.parent];
    stack[..|stack| - 1][n.parent := p.(causeReady := p.causeReady && !n.isCause,
                                        predecessorReady := p.predecessorReady && !n.isPredecessor)]
  }

  /** The stack grew one pending or-node at a time, in preorder. */
  ghost predicate Grown(b: Bocage, stack: seq<Nook>)
    decreases |stack|
  {
    && stack != [] && NooksOk(b, stack)
    && Pending(b, stack[|stack| - 1]) == Children(AndOf(b, stack[|stack| - 1]))
    && if |stack| == 1
       then stack[0].or == b.top && stack[0].parent == -1 && b.top < |b.ors| && b.ors[b.top].nonEmpty
       else
         && 0 <= stack[|stack| - 1].parent < |stack| - 1
         && var prev := Restore(stack);
            && Grown(b, prev)
            && Open(b, Config(Agenda(b, prev), Used(b, prev)))
            && Agenda(b, prev) == [stack[|stack| - 1].or] + Agenda(b, stack[..|stack| - 1])
  }

  // ---------------------------------------------------------------- the stack as a run of choices

  lemma SameShape(b: Bocage, s: seq<Nook>, t: seq<Nook>)
    requires |s| == |t| && NooksOk(b, s) && forall k | 0 <= k < |s| :: t[k].or == s[k].or && t[k].choice == s[k].choice
    ensures NooksOk(b, t) && Used(b, t) == Used(b, s) && Choices(t) == Choices(s)
  {
    if s != [] {
      SameShape(b, s[..|s| - 1], t[..|t| - 1]);
    }
  }

  lemma RestoreShape(b: Bocage, stack: seq<Nook>)
    requires NooksOk(b, stack) && |stack| > 1 && 0 <= stack[|stack| - 1].parent < |stack| - 1
    ensures var prev := Restore(stack);
            && NooksOk(b, prev) && |prev| == |stack| - 1
            && Used(b, prev) == Used(b, stack[..|stack| - 1])
            && Choices(stack) == Choices(prev) + [stack[|stack| - 1].choice]
  {
    SameShape(b, stack[..|stack| - 1], Restore(stack));
  }

  /** The stack is where its choices lead: its pending children are the agenda, its non-empty or-nodes the used ones. */
  lemma {:induction false} GrownRuns(b: Bocage, stack: seq<Nook>)
    requires Grown(b, stack)
    ensures Runs(b, Initial(b), Choices(stack))
    ensures After(b, Initial(b), Choices(stack)) == Config(Agenda(b, stack), Used(b, stack))
    decreases |stack|
  {
    var n := stack[|stack| - 1];
    if |stack| == 1 {
      assert Choices(stack) == [] + [n.choice];
      RunsSnoc(b, Initial(b), [], n.choice);
      assert stack[..0] == [];
    } else {
      var prev := Restore(stack);
      RestoreShape(b, stack);
      GrownRuns(b, prev);
      RunsSnoc(b, Initial(b), Choices(prev), n.choice);
    }
  }

  /** The last nook with another choice and nothing seen to. */
  function WithChoice(stack: seq<Nook>, choice: nat): seq<Nook>
    requires stack != []
  {
    stack[|stack| - 1 := stack[|stack| - 1].(choice := choice, causeReady := false, predecessorReady := false)]
  }

  lemma GrownChoice(b: Bocage, stack: seq<Nook>, choice: nat)
    requires Grown(b, stack) && choice < |b.ors[stack[|stack| - 1].or].ands|
    ensures Grown(b, WithChoice(stack, choice))
    ensures Choices(WithChoice(stack, choice)) == Choices(stack)[..|stack| - 1] + [choice]
    ensures Used(b, WithChoice(stack, choice)) == Used(b, stack)
  {
    hide Agenda, Open;
    var next := WithChoice(stack, choice);
    assert next[..|stack| - 1] == stack[..|stack| - 1];
    if |stack| > 1 {
      assert Restore(next) == Restore(stack);
    }
  }

  // ---------------------------------------------------------------- flags

  ghost predicate Idle(b: Bocage, stack: seq<Nook>, from: nat)
    requires NooksOk(b, stack)
  {
    forall k | from <= k < |stack| :: Pending(b, stack[k]) == []
  }

  lemma IdleAgenda(b: Bocage, stack: seq<Nook>, w: nat)
    requires NooksOk(b, stack) && w < |stack| && Idle(b, stack, w + 1)
    ensures Agenda(b, stack) == Pending(b, stack[w]) + Agenda(b, stack[..w])
  {
    if |stack| == w + 1 {
    } else {
      var front := stack[..|stack| - 1];
      IdleAgenda(b, front, w);
      assert front[..w] == stack[..w];
    }
  }

  function Mark(stack: seq<Nook>, w: nat, cause: bool, predecessor: bool): seq<Nook>
    requires w < |stack|
  {
    stack[w := stack[w].(causeReady := stack[w].causeReady || cause, predecessorReady := stack[w].predecessorReady
        || predecessor)]
  }

  /** Marking a child that is not there changes nothing that is pending. */
  ghost predicate Harmless(b: Bocage, n: Nook, cause: bool, predecessor: bool)
    requires NookOk(b, n)
  {
    && (cause ==> AndOf(b, n).cause.None?)
    && (predecessor ==> AndOf(b, n).predecessor.None?)
  }

  lemma PendingMark(b: Bocage, n: Nook, cause: bool, predecessor: bool)
    requires NookOk(b, n) && Harmless(b, n, cause, predecessor)
    ensures var m := n.(causeReady := n.causeReady || cause, predecessorReady := n.predecessorReady || predecessor);
            NookOk(b, m) && AndOf(b, m) == AndOf(b, n) && Pending(b, m) == Pending(b, n)
  {
  }

  lemma MarkAgenda(b: Bocage, stack: seq<Nook>, w: nat, cause: bool, predecessor: bool)
    requires NooksOk(b, stack) && w < |stack| && Harmless(b, stack[w], cause, predecessor)
    ensures var t := Mark(stack, w, cause, predecessor);
            NooksOk(b, t) && Agenda(b, t) == Agenda(b, stack) && Used(b, t) == Used(b, stack)
                && Choices(t) == Choices(stack)
  {
    hide Agenda, Pending, Harmless, Used, Choices;
    var t := Mark(stack, w, cause, predecessor);
    SameShape(b, stack, t);
    AgendaLast(b, stack);
    AgendaLast(b, t);
    if w == |stack| - 1 {
      PendingMark(b, stack[w], cause, predecessor);
      assert t[..w] == stack[..w];
    } else {
      assert t[..|t| - 1] == Mark(stack[..|stack| - 1], w, cause, predecessor);
      MarkAgenda(b, stack[..|stack| - 1], w, cause, predecessor);
    }
  }

  lemma AgendaLast(b: Bocage, stack: seq<Nook>)
    requires NooksOk(b, stack) && stack != []
    ensures Agenda(b, stack) == Pending(b, stack[|stack| - 1]) + Agenda(b, stack[..|stack| - 1])
  {
  }

  lemma {:induction false} MarkGrown(b: Bocage, stack: seq<Nook>, w: nat, cause: bool, predecessor: bool)
    requires Grown(b, stack) && w < |stack| && Harmless(b, stack[w], cause, predecessor)
    ensures Grown(b, Mark(stack, w, cause, predecessor))
    decreases |stack|, 1
  {
    hide Agenda, Used, Pending, Choices, Harmless;
    var t := Mark(stack, w, cause, predecessor);
    SameShape(b, stack, t);
    PendingMark(b, stack[w], cause, predecessor);
    var last := |stack| - 1;
    if |stack| > 1 {
      if w == last {
        assert t[..last] == stack[..last] && Restore(t) == Restore(stack);
      } else {
        MarkGrownBelow(b, stack, w, cause, predecessor);
      }
    }
  }

  lemma RestoreMark(stack: seq<Nook>, w: nat, cause: bool, predecessor: bool)
    requires |stack| > 1 && 0 <= stack[|stack| - 1].parent < |stack| - 1 && w < |stack| - 1
    ensures var n := stack[|stack| - 1];
            Restore(Mark(stack, w, cause, predecessor))
            == Mark(Restore(stack), w, cause && !(n.parent == w && n.isCause), predecessor
                && !(n.parent == w && n.isPredecessor))
  {
  }

  lemma HarmlessLess(b: Bocage, n: Nook, m: Nook, cause: bool, predecessor: bool, c: bool, p: bool)
    requires NookOk(b, n) && NookOk(b, m) && m.or == n.or && m.choice == n.choice && Harmless(b, n, cause, predecessor)
    requires (c ==> cause) && (p ==> predecessor)
    ensures Harmless(b, m, c, p)
  {
  }

  lemma {:induction false} MarkGrownBelow(b: Bocage, stack: seq<Nook>, w: nat, cause: bool, predecessor: bool)
    requires Grown(b, stack) && w < |stack| - 1 && Harmless(b, stack[w], cause, predecessor)
    ensures Grown(b, Mark(stack, w, cause, predecessor))
    decreases |stack|, 0
  {
    hide Agenda, Used, Pending, Choices, Harmless, Open, Grown;
    var t := Mark(stack, w, cause, predecessor);
    GrownTop(b, stack);
    SameShape(b, stack, t);
    var last := |stack| - 1;
    RestoreMark(stack, w, cause, predecessor);
    var n, prev := stack[last], Restore(stack);
    MarkAgenda(b, stack[..last], w, cause, predecessor);
    assert t[..last] == Mark(stack[..last], w, cause, predecessor);
    var c := cause && !(n.parent == w && n.isCause);
    var p := predecessor && !(n.parent == w && n.isPredecessor);
    RestoreShape(b, stack);
    HarmlessLess(b, stack[w], prev[w], cause, predecessor, c, p);
    MarkGrown(b, prev, w, c, p);
    MarkAgenda(b, prev, w, c, p);
    assert t[last] == n;
    hide Restore, Mark;
    GrownFrom(b, t);
  }

  /** What growing by one nook means, both ways. */
  ghost predicate GrewByOne(b: Bocage, stack: seq<Nook>) {
    && |stack| > 1 && NooksOk(b, stack)
    && Pending(b, stack[|stack| - 1]) == Children(AndOf(b, stack[|stack| - 1]))
    && 0 <= stack[|stack| - 1].parent < |stack| - 1
    && var prev := Restore(stack);
       && Grown(b, prev)
       && Open(b, Config(Agenda(b, prev), Used(b, prev)))
       && Agenda(b, prev) == [stack[|stack| - 1].or] + Agenda(b, stack[..|stack| - 1])
  }

  lemma GrownTop(b: Bocage, stack: seq<Nook>)
    requires Grown(b, stack) && |stack| > 1
    ensures GrewByOne(b, stack)
  {
  }

  lemma GrownFrom(b: Bocage, stack: seq<Nook>)
    requires GrewByOne(b, stack)
    ensures Grown(b, stack)
  {
  }

  // ---------------------------------------------------------------- adding and removing a nook

  function NewNook(or: nat, w: nat, isCause: bool): Nook {
    Nook(or, 0, w, false, isCause, false, !isCause)
  }

  /** The child about to be added is the next on the agenda. */
  ghost predicate NextChild(b: Bocage, stack: seq<Nook>, w: nat, isCause: bool, child: nat)
    requires NooksOk(b, stack) && w < |stack|
  {
    var a := AndOf(b, stack[w]);
    if isCause then a.cause == Some(child) && !stack[w].causeReady
    else a.predecessor == Some(child) && !stack[w].predecessorReady && (a.cause.Some? ==> stack[w].causeReady)
  }

  lemma NextOnAgenda(b: Bocage, stack: seq<Nook>, w: nat, isCause: bool, child: nat)
    requires Grown(b, stack) && w < |stack| && Idle(b, stack, w + 1) && NextChild(b, stack, w, isCause, child)
    ensures Agenda(b, stack) != [] && Agenda(b, stack)[0] == child
    ensures NooksOk(b, Mark(stack, w, isCause, !isCause))
    ensures Agenda(b, stack) == [child] + Agenda(b, Mark(stack, w, isCause, !isCause))
  {
    hide Agenda, Used, Choices, Grown;
    var t := Mark(stack, w, isCause, !isCause);
    assert NooksOk(b, stack) by { GrownNooks(b, stack); }
    SameShape(b, stack, t);
    IdleAgenda(b, stack, w);
    forall k | w + 1 <= k < |t| ensures Pending(b, t[k]) == [] {
      assert Pending(b, stack[k]) == [];
    }
    IdleAgenda(b, t, w);
    assert t[..w] == stack[..w];
    assert Pending(b, stack[w]) == [child] + Pending(b, t[w]);
  }

  lemma GrownNooks(b: Bocage, stack: seq<Nook>)
    requires Grown(b, stack)
    ensures stack != [] && NooksOk(b, stack)
  {
  }

  lemma RestoreNew(b: Bocage, stack: seq<Nook>, w: nat, isCause: bool, child: nat)
    requires NooksOk(b, stack) && w < |stack| && NextChild(b, stack, w, isCause, child)
    ensures Restore(Mark(stack, w, isCause, !isCause) + [NewNook(child, w, isCause)]) == stack
  {
    var t := Mark(stack, w, isCause, !isCause) + [NewNook(child, w, isCause)];
    assert t[..|t| - 1] == Mark(stack, w, isCause, !isCause);
  }

  lemma ChoicesSnoc(stack: seq<Nook>, n: Nook)
    ensures Choices(stack + [n]) == Choices(stack) + [n.choice]
  {
  }

  lemma UsedSnoc(b: Bocage, stack: seq<Nook>, n: Nook)
    requires NooksOk(b, stack) && NookOk(b, n)
    ensures NooksOk(b, stack + [n])
    ensures Used(b, stack + [n]) == Used(b, stack) + if b.ors[n.or].nonEmpty then {n.or} else {}
  {
    assert (stack + [n])[..|stack|] == stack;
  }

  lemma Push(b: Bocage, stack: seq<Nook>, w: nat, isCause: bool, child: nat)
    requires Grown(b, stack) && w < |stack| && Idle(b, stack, w + 1) && NextChild(b, stack, w, isCause, child)
    requires child < |b.ors| && b.ors[child].ands != [] && (b.ors[child].nonEmpty ==> child !in Used(b, stack))
    ensures var t := Mark(stack, w, isCause, !isCause) + [NewNook(child, w, isCause)];
            && Grown(b, t) && Choices(t) == Choices(stack) + [0]
            && Used(b, t) == Used(b, stack) + if b.ors[child].nonEmpty then {child} else {}
  {
    hide Agenda, Idle, Choices;
    var marked := Mark(stack, w, isCause, !isCause);
    var n := NewNook(child, w, isCause);
    var t := marked + [n];
    NextOnAgenda(b, stack, w, isCause, child);
    SameShape(b, stack, marked);
    assert t[..|t| - 1] == marked;
    RestoreNew(b, stack, w, isCause, child);
    ChoicesSnoc(marked, n);
    UsedSnoc(b, marked, n);
    hide Used, NextChild;
  }

  lemma Pop(b: Bocage, stack: seq<Nook>)
    requires Grown(b, stack) && |stack| > 1
    ensures Grown(b, Restore(stack))
    ensures Choices(stack) == Choices(Restore(stack)) + [stack[|stack| - 1].choice]
    ensures Used(b, Restore(stack)) == Used(b, stack) - {stack[|stack| - 1].or}
    ensures Runs(b, Initial(b), Choices(Restore(stack))) && Open(b, After(b, Initial(b), Choices(Restore(stack))))
    ensures After(b, Initial(b), Choices(Restore(stack))).agenda[0] == stack[|stack| - 1].or
  {
    GrownTop(b, stack);
    hide Grown, Agenda, Pending, Choices, Used, Restore, Runs, After;
    RestoreShape(b, stack);
    var prev := Restore(stack);
    GrownRuns(b, prev);
    UsedIsNonEmpty(b, prev);
    UsedLast(b, stack);
  }

  lemma UsedLast(b: Bocage, stack: seq<Nook>)
    requires NooksOk(b, stack) && stack != []
    ensures Used(b, stack) == Used(b, stack[..|stack| - 1]) + if b.ors[stack[|stack| - 1].or].nonEmpty
        then {stack[|stack| - 1].or} else {}
  {
  }

  lemma UsedIsNonEmpty(b: Bocage, stack: seq<Nook>)
    requires NooksOk(b, stack)
    ensures forall o | o in Used(b, stack) :: o < |b.ors| && b.ors[o].nonEmpty
  {
    if stack != [] {
      UsedIsNonEmpty(b, stack[..|stack| - 1]);
    }
  }

  // ---------------------------------------------------------------- one move of the search

  /** Not yet past the tree the search started from, or already beyond it. */
  ghost predicate Reached(from: Option<seq<nat>>, p: seq<nat>) {
    from.Some? ==> p <= from.value || Less(from.value, p)
  }

  ghost predicate Beyond(from: Option<seq<nat>>, p: seq<nat>) {
    from.Some? ==> Less(from.value, p)
  }

  /** What is left to search at and after these choices. */
  ghost function Left(b: Bocage, w: seq<nat>, p: seq<nat>): nat
    requires BocageOk(b, w) && Runs(b, Initial(b), p)
  {
    Ahead(b, w, Initial(b), p) + Below(b, w, After(b, Initial(b), p))
  }

  ghost predicate LeftLess(b: Bocage, w: seq<nat>, p: seq<nat>, q: seq<nat>) {
    BocageOk(b, w) && Runs(b, Initial(b), p) && Runs(b, Initial(b), q) && Left(b, w, p) < Left(b, w, q)
  }

  lemma Top(b: Bocage, stack: seq<Nook>)
    requires Grown(b, stack)
    ensures var q := Choices(stack)[..|stack| - 1];
            && Choices(stack) == q + [stack[|stack| - 1].choice]
            && Runs(b, Initial(b), q) && Open(b, After(b, Initial(b), q))
            && After(b, Initial(b), q).agenda[0] == stack[|stack| - 1].or
            && Runs(b, Initial(b), Choices(stack))
  {
    GrownRuns(b, stack);
    if |stack| > 1 {
      Pop(b, stack);
      assert Choices(stack)[..|stack| - 1] == Choices(Restore(stack));
    }
  }

  /** The next choice at the same place. */
  lemma Advance(b: Bocage, w: seq<nat>, from: Option<seq<nat>>, q: seq<nat>, x: nat)
    requires BocageOk(b, w) && Runs(b, Initial(b), q) && Runs(b, Initial(b), q + [x])
    requires CanStep(b, After(b, Initial(b), q), x + 1)
    requires Dead(b, from, q + [x]) && Reached(from, q + [x])
    ensures Live(b, from, q + [x + 1]) && Beyond(from, q + [x + 1])
    ensures Runs(b, Initial(b), q + [x + 1])
    ensures Left(b, w, q + [x + 1]) == Ahead(b, w, Initial(b), q + [x])
  {
    hide BocageOk, Dead, Live;
    DeadNext(b, from, q, x);
    RunsSnoc(b, Initial(b), q, x + 1);
    AheadSnoc(b, w, Initial(b), q, x);
    AheadSnoc(b, w, Initial(b), q, x + 1);
    BelowStep(b, w, After(b, Initial(b), q), x + 1);
    if from.Some? {
      ReachedNext(from.value, q, x);
    }
  }

  lemma ReachedNext(f: seq<nat>, q: seq<nat>, x: nat)
    requires q + [x] <= f || Less(f, q + [x])
    ensures Less(f, q + [x + 1])
    ensures q <= f || Less(f, q)
  {
    var p, r := q + [x], q + [x + 1];
    if p <= f {
      assert f[..|q|] == q == r[..|q|] && f[|q|] == x;
    } else {
      var k: nat :| k < |f| && k < |p| && f[..k] == p[..k] && f[k] < p[k];
      assert r[..k] == p[..k] && q[..k] == p[..k];
      assert k == |q| ==> f[..k] == q;
    }
  }

  /** Giving the place up. */
  lemma Retreat(b: Bocage, w: seq<nat>, from: Option<seq<nat>>, q: seq<nat>, x: nat)
    requires BocageOk(b, w) && Runs(b, Initial(b), q) && Runs(b, Initial(b), q + [x])
    requires Open(b, After(b, Initial(b), q)) && !CanStep(b, After(b, Initial(b), q), x + 1)
    requires Dead(b, from, q + [x]) && Reached(from, q + [x])
    ensures Dead(b, from, q) && Reached(from, q)
    ensures Ahead(b, w, Initial(b), q) <= Ahead(b, w, Initial(b), q + [x])
  {
    hide BocageOk, Dead;
    DeadUp(b, from, q, x);
    AheadSnoc(b, w, Initial(b), q, x);
    if from.Some? {
      ReachedNext(from.value, q, x);
    }
  }

  /** Going down. */
  lemma Descend(b: Bocage, w: seq<nat>, from: Option<seq<nat>>, p: seq<nat>)
    requires BocageOk(b, w) && Runs(b, Initial(b), p) && CanStep(b, After(b, Initial(b), p), 0)
    requires Live(b, from, p) && Beyond(from, p)
    ensures Runs(b, Initial(b), p + [0]) && Live(b, from, p + [0]) && Beyond(from, p + [0])
    ensures Left(b, w, p + [0]) < Left(b, w, p)
  {
    hide BocageOk, Live;
    LiveDown(b, from, p);
    RunsSnoc(b, Initial(b), p, 0);
    AheadSnoc(b, w, Initial(b), p, 0);
    BelowStep(b, w, After(b, Initial(b), p), 0);
    if from.Some? {
      LessExtends(from.value, p, [0]);
    }
  }

  lemma DeadEnd(b: Bocage, from: Option<seq<nat>>)
    requires Dead(b, from, [])
    ensures forall d :: !Listed(b, from, d)
  {
    forall d ensures !Listed(b, from, d) {
      assert !Less([], d);
    }
  }

  /** The worklist names, in stack order, every nook that may still have something pending. */
  ghost predicate WorkOk(b: Bocage, stack: seq<Nook>, worklist: seq<nat>)
    requires NooksOk(b, stack)
  {
    && (forall k | 0 <= k < |worklist| :: worklist[k] < |stack|)
    && (forall k, m | 0 <= k < m < |worklist| :: worklist[k] < worklist[m])
    && (forall k: nat | k < |stack| && k !in worklist :: Pending(b, stack[k]) == [])
  }

  lemma WorkTop(b: Bocage, stack: seq<Nook>, worklist: seq<nat>)
    requires NooksOk(b, stack) && WorkOk(b, stack, worklist)
    ensures worklist == [] ==> Agenda(b, stack) == []
    ensures worklist != [] ==> Idle(b, stack, worklist[|worklist| - 1] + 1)
  {
    if worklist == [] {
      if stack != [] {
        assert Idle(b, stack, 1);
        IdleAgenda(b, stack, 0);
        assert 0 !in worklist;
        assert stack[..0] == [];
      }
    }
  }

  /** Marking a child that is not there, or that has been seen to. */
  ghost predicate Settled(b: Bocage, n: Nook, cause: bool)
    requires NookOk(b, n)
  {
    if cause then AndOf(b, n).cause.None? || n.causeReady else AndOf(b, n).predecessor.None? || n.predecessorReady
  }

  lemma MarkSettled(b: Bocage, stack: seq<Nook>, worklist: seq<nat>, w: nat, cause: bool)
    requires Grown(b, stack) && w < |stack| && NooksOk(b, stack) && Settled(b, stack[w], cause)
        && WorkOk(b, stack, worklist)
    ensures var t := Mark(stack, w, cause, !cause);
            && Grown(b, t) && NooksOk(b, t) && Choices(t) == Choices(stack) && Used(b, t) == Used(b, stack)
            && |t| == |stack| && AndOf(b, t[w]) == AndOf(b, stack[w])
            && WorkOk(b, t, worklist)
  {
    var t := Mark(stack, w, cause, !cause);
    if (if cause then stack[w].causeReady else stack[w].predecessorReady) {
      assert t == stack;
    } else {
      MarkGrown(b, stack, w, cause, !cause);
      MarkAgenda(b, stack, w, cause, !cause);
      hide Grown;
      PendingMark(b, stack[w], cause, !cause);
      forall k: nat | k < |t| && k !in worklist ensures Pending(b, t[k]) == [] {
        assert Pending(b, stack[k]) == [];
      }
    }
  }

  lemma WorkDone(b: Bocage, stack: seq<Nook>, worklist: seq<nat>)
    requires NooksOk(b, stack) && worklist != [] && WorkOk(b, stack, worklist)
    requires Pending(b, stack[worklist[|worklist| - 1]]) == []
    ensures WorkOk(b, stack, worklist[..|worklist| - 1])
  {
    var n := |worklist| - 1;
    forall k: nat | k < |stack| && k !in worklist[..n] ensures Pending(b, stack[k]) == [] {
      assert worklist == worklist[..n] + [worklist[n]];
      assert k in worklist ==> k == worklist[n];
    }
  }

  lemma WorkPush(b: Bocage, stack: seq<Nook>, worklist: seq<nat>, w: nat, isCause: bool, n: Nook)
    requires NooksOk(b, stack) && WorkOk(b, stack, worklist) && w in worklist && w < |stack|
    requires NooksOk(b, Mark(stack, w, isCause, !isCause) + [n])
    ensures WorkOk(b, Mark(stack, w, isCause, !isCause) + [n], worklist + [|stack|])
  {
    var t, work := Mark(stack, w, isCause, !isCause) + [n], worklist + [|stack|];
    forall k: nat | k < |t| && k !in work ensures Pending(b, t[k]) == [] {
      assert k in worklist ==> k in work;
      assert work[|worklist|] == |stack|;
      assert Pending(b, stack[k]) == [] && t[k] == stack[k];
    }
  }

  /** Everything known while a tree is being completed. */
  ghost predicate Building(b: Bocage, w: seq<nat>, from: Option<seq<nat>>, stack: seq<Nook>, inUse: set<nat>) {
    && BocageOk(b, w) && Grown(b, stack) && inUse == Used(b, stack)
    && Runs(b, Initial(b), Choices(stack)) && Live(b, from, Choices(stack)) && Beyond(from, Choices(stack))
  }

  lemma BuildingNooks(b: Bocage, w: seq<nat>, from: Option<seq<nat>>, stack: seq<Nook>, inUse: set<nat>)
    requires Building(b, w, from, stack, inUse)
    ensures stack != [] && NooksOk(b, stack) && BocageOk(b, w) && Runs(b, Initial(b), Choices(stack))
  {
  }

  lemma StartWork(b: Bocage, stack: seq<Nook>, worklist: seq<nat>)
    requires NooksOk(b, stack) && |worklist| == |stack| && forall k | 0 <= k < |worklist| :: worklist[k] == k
    ensures WorkOk(b, stack, worklist)
  {
    forall k: nat | k < |stack| ensures k in worklist {
      assert worklist[k] == k;
    }
  }

  /** Nothing pending is left: the choices are a tree, the first one listed. */
  lemma BuildingDone(b: Bocage, w: seq<nat>, from: Option<seq<nat>>, stack: seq<Nook>, inUse: set<nat>)
    requires Building(b, w, from, stack, inUse) && NooksOk(b, stack) && Agenda(b, stack) == []
    ensures Listed(b, from, Choices(stack))
    ensures forall d | Listed(b, from, d) :: d == Choices(stack) || Less(Choices(stack), d)
    ensures Runs(b, Initial(b), Choices(stack)) && Ahead(b, w, Initial(b), Choices(stack)) < Left(b, w, Choices(stack))
  {
    var p := Choices(stack);
    GrownRuns(b, stack);
    forall d | Listed(b, from, d) ensures d == p || Less(p, d) {
      if p < d {
        TreeChoices(b, p, d);
      }
    }
  }

  lemma BuildingMark(b: Bocage, w: seq<nat>, from: Option<seq<nat>>, stack: seq<Nook>, inUse: set<nat>,
      worklist: seq<nat>, k: nat, cause: bool)
    requires Building(b, w, from, stack, inUse) && NooksOk(b, stack) && WorkOk(b, stack, worklist)
    requires k < |stack| && Settled(b, stack[k], cause)
    ensures var t := Mark(stack, k, cause, !cause);
            && Building(b, w, from, t, inUse) && NooksOk(b, t) && WorkOk(b, t, worklist)
            && Choices(t) == Choices(stack) && |t| == |stack| && AndOf(b, t[k]) == AndOf(b, stack[k])
  {
    hide BocageOk, Grown, WorkOk, Settled, Live, Choices, Runs;
    MarkSettled(b, stack, worklist, k, cause);
  }

  /** The child is in use already: whatever starts like this is no tree. */
  lemma BuildingBlocked(b: Bocage, w: seq<nat>, from: Option<seq<nat>>, stack: seq<Nook>, inUse: set<nat>, k: nat,
      isCause: bool, child: nat)
    requires Building(b, w, from, stack, inUse) && NooksOk(b, stack) && k < |stack| && Idle(b, stack, k + 1)
    requires NextChild(b, stack, k, isCause, child)
    requires child < |b.ors| && b.ors[child].nonEmpty && child in inUse
    ensures Dead(b, from, Choices(stack)) && Reached(from, Choices(stack))
    ensures Runs(b, Initial(b), Choices(stack)) && Ahead(b, w, Initial(b), Choices(stack)) < Left(b, w, Choices(stack))
  {
    hide BocageOk, Live, Dead, NextChild, Idle;
    GrownRuns(b, stack);
    NextOnAgenda(b, stack, k, isCause, child);
    hide Grown, Agenda, Used;
    BlockedIsDead(b, from, Choices(stack));
  }

  lemma BuildingPush(b: Bocage, w: seq<nat>, from: Option<seq<nat>>, stack: seq<Nook>, inUse: set<nat>,
      worklist: seq<nat>, k: nat, isCause: bool, child: nat)
    requires Building(b, w, from, stack, inUse) && NooksOk(b, stack) && WorkOk(b, stack, worklist)
    requires k in worklist && k < |stack| && Idle(b, stack, k + 1) && NextChild(b, stack, k, isCause, child)
    requires child < |b.ors| && b.ors[child].ands != [] && (b.ors[child].nonEmpty ==> child !in inUse)
    ensures var t := Mark(stack, k, isCause, !isCause) + [NewNook(child, k, isCause)];
            && Building(b, w, from, t, if b.ors[child].nonEmpty then inUse + {child} else inUse)
            && NooksOk(b, t) && WorkOk(b, t, worklist + [|stack|])
            && LeftLess(b, w, Choices(t), Choices(stack))
  {
    hide BocageOk, Live, Choices, WorkOk, Runs;
    var t := Mark(stack, k, isCause, !isCause) + [NewNook(child, k, isCause)];
    GrownRuns(b, stack);
    NextOnAgenda(b, stack, k, isCause, child);
    Push(b, stack, k, isCause, child);
    GrownNooks(b, t);
    WorkPush(b, stack, worklist, k, isCause, NewNook(child, k, isCause));
    hide Grown, Agenda, Used, NextChild, Idle, Left;
    Descend(b, w, from, Choices(stack));
  }

  lemma ChildExists(b: Bocage, w: seq<nat>, n: Nook, child: nat)
    requires BocageOk(b, w) && NookOk(b, n) && (AndOf(b, n).cause == Some(child)
        || AndOf(b, n).predecessor == Some(child))
    ensures child < |b.ors| && b.ors[child].ands != []
  {
    assert AndOk(b, w, n.or, b.ors[n.or].ands[n.choice]);
    assert child in Children(AndOf(b, n));
  }

  /** `t` is the first tree after `from` in the listing order. */
  ghost predicate IsNext(b: Bocage, from: Option<seq<nat>>, t: seq<nat>) {
    && Listed(b, from, t)
    && forall d | Listed(b, from, d) :: d == t || Less(t, d)
  }

  ghost predicate NoneLeft(b: Bocage, from: Option<seq<nat>>) {
    forall d :: !Listed(b, from, d)
  }

  // ---------------------------------------------------------------- the iterator

  class TreeIterator {
    const b: Bocage
    const isNulling: bool
    ghost const w: seq<nat>
    var stack: seq<Nook>
    var worklist: seq<nat>
    var inUse: set<nat>
    var parseCount: nat
    var exhausted: bool

    /** A nulling parse has no graph to walk: its one tree is empty. */
    ghost predicate NullingOk()
      reads this
    {
      isNulling && stack == [] && inUse == {} && parseCount <= 1 && (exhausted ==> parseCount == 1)
    }

    /** The in-use bits are the non-empty or-nodes on the stack, and between calls the stack is a whole tree. */
    ghost predicate Valid()
      reads this
    {
      NullingOk() || WalkOk()
    }

    ghost predicate WalkOk()
      reads this
    {
      && !isNulling && BocageOk(b, w)
      && (parseCount == 0 && !exhausted ==> stack == [] && inUse == {})
      && (parseCount > 0 && !exhausted ==> Grown(b, stack) && Agenda(b, stack) == [] && inUse == Used(b, stack))
    }

    constructor (b: Bocage, ghost w: seq<nat>)
      requires BocageOk(b, w)
      ensures Valid() && !isNulling && this.b == b && parseCount == 0 && !exhausted
    {
      this.b, this.w, isNulling := b, w, false;
      stack, worklist, inUse, parseCount, exhausted := [], [], {}, 0, false;
    }

    constructor Nulling()
      ensures Valid() && isNulling && parseCount == 0 && !exhausted
    {
      b, w, isNulling := Bocage([], 0), [], true;
      stack, worklist, inUse, parseCount, exhausted := [], [], {}, 0, false;
    }

    ghost predicate Searching()
      reads this
    {
      BocageOk(b, w) && Grown(b, stack) && inUse == Used(b, stack)
    }

    /** Step back to the latest nook with a further and-node and take that. */
    method Iterate(ghost from: Option<seq<nat>>) returns (more: bool)
      requires Searching() && Runs(b, Initial(b), Choices(stack))
      requires Dead(b, from, Choices(stack)) && Reached(from, Choices(stack))
      modifies `stack, `inUse
      ensures more ==>
                && Searching() && Runs(b, Initial(b), Choices(stack))
                && Live(b, from, Choices(stack)) && Beyond(from, Choices(stack))
                && Left(b, w, Choices(stack)) <= old(Ahead(b, w, Initial(b), Choices(stack)))
      ensures !more ==> forall d :: !Listed(b, from, d)
    {
      hide BocageOk, Grown, Used, Live, Dead, Reached, Beyond, Choices, Open, Listed, Left, Ahead, Runs, WithChoice,
          Initial, After;
      ghost var bound := Ahead(b, w, Initial(b), Choices(stack));
      GrownNooks(b, stack);
      while stack != []
        invariant stack != [] ==>
                    && Searching() && Runs(b, Initial(b), Choices(stack))
                    && Dead(b, from, Choices(stack)) && Reached(from, Choices(stack))
                    && Ahead(b, w, Initial(b), Choices(stack)) <= bound
        invariant stack == [] ==> Dead(b, from, [])
        decreases |stack|
      {
        GrownNooks(b, stack);
        Top(b, stack);
        var candidate := stack[|stack| - 1];
        var choice := candidate.choice + 1;
        ghost var q := Choices(stack)[..|stack| - 1];
        if choice < |b.ors[candidate.or].ands| {
          Advance(b, w, from, q, candidate.choice);
          GrownChoice(b, stack, choice);
          stack := WithChoice(stack, choice);
          return true;
        }
        Retreat(b, w, from, q, candidate.choice);
        if |stack| > 1 {
          ParentBelow(b, stack);
          Pop(b, stack);
          QChoices(q, Choices(Restore(stack)), candidate.choice);
          stack := Restore(stack);
        } else {
          EmptyChoices(stack);
          stack := [];
        }
        inUse := inUse - {candidate.or};
      }
      DeadEnd(b, from);
      return false;
    }

    /** Add pending children until none is left, or until one cannot be added. */
    method Build(ghost from: Option<seq<nat>>) returns (finished: bool)
      requires Building(b, w, from, stack, inUse) && BocageOk(b, w) && Runs(b, Initial(b), Choices(stack))
      modifies `stack, `inUse, `worklist
      ensures Searching() && Runs(b, Initial(b), Choices(stack)) && NooksOk(b, stack)
      ensures Ahead(b, w, Initial(b), Choices(stack)) < old(Left(b, w, Choices(stack)))
      ensures finished ==>
                && Agenda(b, stack) == [] && Listed(b, from, Choices(stack))
                && forall d | Listed(b, from, d) :: d == Choices(stack) || Less(Choices(stack), d)
      ensures !finished ==> Dead(b, from, Choices(stack)) && Reached(from, Choices(stack))
    {
      hide Building, BocageOk, WorkOk, Agenda, Used, Choices, Left, Ahead, Runs, Live, Dead, Reached, Listed, Idle,
          Grown;
      BuildingNooks(b, w, from, stack, inUse);
      ghost var bound := Left(b, w, Choices(stack));
      worklist := seq(|stack|, k => k);
      StartWork(b, stack, worklist);
      while worklist != []
        invariant Building(b, w, from, stack, inUse) && NooksOk(b, stack) && WorkOk(b, stack, worklist)
        invariant BocageOk(b, w) && Runs(b, Initial(b), Choices(stack)) && Left(b, w, Choices(stack)) <= bound
        decreases Left(b, w, Choices(stack)), |worklist|
      {
        WorkTop(b, stack, worklist);
        WorkInRange(b, stack, worklist);
        var k := worklist[|worklist| - 1];
        var a := AndOf(b, stack[k]);
        var isCause := a.cause.Some? && !stack[k].causeReady;
        if !isCause {
          BuildingMark(b, w, from, stack, inUse, worklist, k, true);
          stack := Mark(stack, k, true, false);
          if !(a.predecessor.Some? && !stack[k].predecessorReady) {
            BuildingMark(b, w, from, stack, inUse, worklist, k, false);
            stack := Mark(stack, k, false, true);
            WorkDone(b, stack, worklist);
            worklist := worklist[..|worklist| - 1];
            continue;
          }
          WorkTop(b, stack, worklist);
        }
        var child := if isCause then a.cause.value else a.predecessor.value;
        ChildExists(b, w, stack[k], child);
        if b.ors[child].nonEmpty {
          if child in inUse {
            BuildingBlocked(b, w, from, stack, inUse, k, isCause, child);
            BuildingSearch(b, w, from, stack, inUse);
            return false;
          }
        }
        BuildingPush(b, w, from, stack, inUse, worklist, k, isCause, child);
        if b.ors[child].nonEmpty {
          inUse := inUse + {child};
        }
        worklist := worklist + [|stack|];
        stack := Mark(stack, k, isCause, !isCause) + [NewNook(child, k, isCause)];
      }
      WorkTop(b, stack, worklist);
      BuildingDone(b, w, from, stack, inUse);
      BuildingSearch(b, w, from, stack, inUse);
      return true;
    }

    /** The tree the last call left behind. */
    ghost function Last(): Option<seq<nat>>
      reads this
    {
      if parseCount == 0 then None else Some(Choices(stack))
    }

    /** The search yet to be done after the current tree. */
    ghost function Remaining(): nat
      reads this
      requires Valid() && !exhausted
    {
      if isNulling then 1 - parseCount
      else if parseCount == 0 then 1 + Below(b, w, Initial(b))
      else GrownRuns(b, stack); Ahead(b, w, Initial(b), Choices(stack))
    }

    method PushRoot()
      requires BocageOk(b, w) && stack == [] && inUse == {}
      modifies `stack, `inUse
      ensures Building(b, w, None, stack, inUse) && Runs(b, Initial(b), Choices(stack))
      ensures Left(b, w, Choices(stack)) <= Below(b, w, Initial(b))
    {
      stack := [Nook(b.top, 0, -1, false, false, false, false)];
      inUse := {b.top};
      RootBuilds(b, w, stack, inUse);
    }

    /** Move to the next tree. Every tree of the graph is reached, each once, in order, and then none. */
    method Next() returns (size: int)
      requires Valid()
      modifies this
      ensures Valid()
      ensures old(exhausted) ==> size == -1 && exhausted
      ensures !old(exhausted) && size != -1 ==>
                && !exhausted && parseCount == old(parseCount) + 1 && size == |stack|
                && (if isNulling then old(parseCount) == 0 && stack == []
                    else IsNext(b, old(Last()), Choices(stack)))
                && Remaining() < old(Remaining())
      ensures !old(exhausted) && size == -1 ==>
                && exhausted && parseCount == old(parseCount)
                && if isNulling then parseCount == 1 else NoneLeft(b, old(Last()))
      ensures size >= -1
    {
      hide BocageOk, Grown, Used, Live, Dead, Reached, Beyond, Choices, Building, Left, Ahead, Below, Listed, Agenda,
          Runs, Initial, After;
      if exhausted {
        return -1;
      }
      var first := parseCount == 0;
      if isNulling {
        if first {
          parseCount := 1;
          return 0;
        }
        exhausted := true;
        return -1;
      }
      ghost var from := Last();
      ghost var bound := Remaining();
      if first {
        PushRoot();
      } else {
        var more := FromTree(from, bound);
        if !more {
          exhausted := true;
          return -1;
        }
      }
      while true
        invariant !exhausted && parseCount == old(parseCount)
        invariant Building(b, w, from, stack, inUse) && BocageOk(b, w) && Runs(b, Initial(b), Choices(stack))
        invariant Left(b, w, Choices(stack)) <= bound
        decreases Left(b, w, Choices(stack))
      {
        var finished := Build(from);
        if finished {
          break;
        }
        var more := Iterate(from);
        if !more {
          exhausted := true;
          return -1;
        }
        SearchBuilds(b, w, from, stack, inUse);
      }
      parseCount := parseCount + 1;
      return |stack|;
    }

    /** Leave the current tree. */
    method FromTree(ghost from: Option<seq<nat>>, ghost bound: nat) returns (more: bool)
      requires WalkOk() && !exhausted && parseCount > 0 && from == Last() && bound == Remaining()
      modifies `stack, `inUse
      ensures BocageOk(b, w)
      ensures more ==>
                && Building(b, w, from, stack, inUse) && Runs(b, Initial(b), Choices(stack))
                && Left(b, w, Choices(stack)) <= bound
      ensures !more ==> NoneLeft(b, from)
    {
      GrownRuns(b, stack);
      TreeIsDead(b, Choices(stack));
      more := Iterate(from);
    }
  }

  lemma TreeIsDead(b: Bocage, p: seq<nat>)
    ensures Dead(b, Some(p), p) && Reached(Some(p), p)
  {
  }

  lemma SearchBuilds(b: Bocage, w: seq<nat>, from: Option<seq<nat>>, stack: seq<Nook>, inUse: set<nat>)
    requires BocageOk(b, w) && Grown(b, stack) && inUse == Used(b, stack)
    requires Runs(b, Initial(b), Choices(stack)) && Live(b, from, Choices(stack)) && Beyond(from, Choices(stack))
    ensures Building(b, w, from, stack, inUse)
  {
  }

  lemma RootBuilds(b: Bocage, w: seq<nat>, stack: seq<Nook>, inUse: set<nat>)
    requires BocageOk(b, w)
    requires stack == [Nook(b.top, 0, -1, false, false, false, false)] && inUse == {b.top}
    ensures Building(b, w, None, stack, inUse) && Runs(b, Initial(b), Choices(stack))
    ensures Left(b, w, Choices(stack)) <= Below(b, w, Initial(b))
  {
    RootGrown(b, w, stack);
    GrownRuns(b, stack);
    hide Grown, Agenda, Used, Live, Ahead, Below, BocageOk;
    assert Choices(stack) == [] + [0] == [0];
    LiveStart(b, w);
    AheadSnoc(b, w, Initial(b), [], 0);
    RunsSnoc(b, Initial(b), [], 0);
    BelowStep(b, w, Initial(b), 0);
    AheadNone(b, w);
  }

  lemma RootGrown(b: Bocage, w: seq<nat>, stack: seq<Nook>)
    requires BocageOk(b, w) && stack == [Nook(b.top, 0, -1, false, false, false, false)]
    ensures Grown(b, stack) && Used(b, stack) == {b.top}
  {
    assert stack[..0] == [];
  }

  lemma AheadNone(b: Bocage, w: seq<nat>)
    requires BocageOk(b, w)
    ensures Ahead(b, w, Initial(b), []) == 0
  {
  }

  lemma WorkInRange(b: Bocage, stack: seq<Nook>, worklist: seq<nat>)
    requires NooksOk(b, stack) && WorkOk(b, stack, worklist) && worklist != []
    ensures worklist[|worklist| - 1] < |stack|
  {
  }

  lemma BuildingSearch(b: Bocage, w: seq<nat>, from: Option<seq<nat>>, stack: seq<Nook>, inUse: set<nat>)
    requires Building(b, w, from, stack, inUse)
    ensures BocageOk(b, w) && Grown(b, stack) && inUse == Used(b, stack) && Runs(b, Initial(b), Choices(stack))
  {
  }

  lemma ParentBelow(b: Bocage, stack: seq<Nook>)
    requires Grown(b, stack) && |stack| > 1
    ensures 0 <= stack[|stack| - 1].parent < |stack| - 1
  {
  }

  lemma QChoices(q: seq<nat>, r: seq<nat>, x: nat)
    requires q + [x] == r + [x]
    ensures q == r
  {
    assert (q + [x])[..|q|] == q && (r + [x])[..|r|] == r;
  }

  lemma EmptyChoices(stack: seq<Nook>)
    requires |stack| == 1
    ensures |Choices(stack)| == 1 && Choices(stack)[..0] == []
  {
  }
}
