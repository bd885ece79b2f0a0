/** Where the values of a parse tree lie in the input, and which tokens they hold. */
module ValueSpans {
  import opened ParseTrees
  import opened Trees
  import opened Valuations
  import opened Valuators

  function Starts(x: Value): nat {
    match x
    case Token(_, _, start, _) => start
    case Null(_, at) => at
    case Applied(_, _, start, _) => start
  }

  function Ends(x: Value): nat {
    match x
    case Token(_, _, _, end) => end
    case Null(_, at) => at
    case Applied(_, _, _, end) => end
  }

  /** The first value starts at `i`, each next one where the one before ends, and the last ends at `j`. */
  ghost predicate Tiles(xs: seq<Value>, i: nat, j: nat)
    decreases |xs|
  {
    if xs == [] then i == j else Starts(xs[0]) == i && Tiles(xs[1..], Ends(xs[0]), j)
  }

  lemma {:induction false} TilesJoin(xs: seq<Value>, ys: seq<Value>, i: nat, m: nat, j: nat)
    requires Tiles(xs, i, m) && Tiles(ys, m, j)
    ensures Tiles(xs + ys, i, j)
    decreases |xs|
  {
    if xs == [] {
      assert xs + ys == ys;
    } else {
      assert (xs + ys)[1..] == xs[1..] + ys;
      TilesJoin(xs[1..], ys, Ends(xs[0]), m, j);
    }
  }

  /** At every depth the arguments of a rule tile its span. */
  ghost predicate Laid(x: Value) {
    x.Applied? ==>
      && x.args != [] && Tiles(x.args, x.start, x.end)
      && forall k | 0 <= k < |x.args| :: Laid(x.args[k])
  }

  /** The tokens and empty symbols a tree picks, from left to right. */
  ghost function Picked(a: Labelled, t: PTree): seq<Tok>
    requires Rooted(a, t)
    decreases t
  {
    RootedOr(a, t);
    (if AndAt(a, t).predecessor.Some? then Picked(a, PredecessorTree(a, t)) else [])
    + if AndAt(a, t).cause.Some? then Picked(a, CauseTree(a, t)) else [a.toks[t.or][t.choice]]
  }

  /** And those a value holds. */
  ghost function Held(x: Value): seq<Tok> {
    match x
    case Token(symbol, value, _, _) => [Read(symbol, value)]
    case Null(symbol, _) => [Empty(symbol)]
    case Applied(_, args, _, _) => AllHeld(args)
  }

  ghost function AllHeld(xs: seq<Value>): seq<Tok> {
    if xs == [] then [] else Held(xs[0]) + AllHeld(xs[1..])
  }

  lemma {:induction false} HeldJoin(xs: seq<Value>, ys: seq<Value>)
    ensures AllHeld(xs + ys) == AllHeld(xs) + AllHeld(ys)
    decreases |xs|
  {
    if xs == [] {
      assert xs + ys == ys;
    } else {
      assert (xs + ys)[1..] == xs[1..] + ys;
      HeldJoin(xs[1..], ys);
    }
  }

  lemma OneHeld(x: Value)
    ensures AllHeld([x]) == Held(x)
  {
    assert [x][1..] == [];
  }

  lemma OneTiles(x: Value)
    ensures Tiles([x], Starts(x), Ends(x))
  {
    assert [x][1..] == [];
  }

  /** The values of a tree tile its span, are laid out right inside, and hold what it picks. */
  lemma {:induction false} ValuesLaid(a: Labelled, t: PTree)
    requires Rooted(a, t)
    ensures OrOk(a, t.or)
    ensures Tiles(Values(a, t), a.labels[t.or].origin, a.labels[t.or].end)
    ensures forall x | x in Values(a, t) :: Laid(x)
    ensures AllHeld(Values(a, t)) == Picked(a, t)
    decreases t, 1
  {
    hide Rooted, Matched, Tiles, Picked;
    RootedOr(a, t);
    MatchedLaid(a, t);
    if Complete(a, t.or) && !CodeOf(a, t.or).virtualLhs {
      var args := Matched(a, t);
      var x := Applied(CodeOf(a, t.or).rule, args, a.labels[t.or].origin, a.labels[t.or].end);
      assert forall k | 0 <= k < |args| :: args[k] in args;
      OneTiles(x);
      OneHeld(x);
    }
  }

  lemma {:induction false} MatchedLaid(a: Labelled, t: PTree)
    requires Rooted(a, t)
    ensures OrOk(a, t.or)
    ensures Tiles(Matched(a, t), a.labels[t.or].origin, a.labels[t.or].end)
    ensures forall x | x in Matched(a, t) :: Laid(x)
    ensures AllHeld(Matched(a, t)) == Picked(a, t)
    decreases t, 0
  {
    hide Rooted, Values, Tiles, Laid, AllHeld;
    RootedOr(a, t);
    var and, l := AndAt(a, t), a.labels[t.or];
    var front: seq<Value>, middle: nat := [], l.origin;
    if and.predecessor.Some? {
      ValuesLaid(a, PredecessorTree(a, t));
      front, middle := Values(a, PredecessorTree(a, t)), a.labels[and.predecessor.value].end;
    } else {
      NoneLaid(l.origin);
    }
    var back;
    if and.cause.Some? {
      ValuesLaid(a, CauseTree(a, t));
      back := Values(a, CauseTree(a, t));
    } else {
      back := [TokValue(a, t.or, t.choice)];
      TokLaid(a, t, middle);
    }
    TilesJoin(front, back, l.origin, middle, l.end);
    HeldJoin(front, back);
    assert Matched(a, t) == front + back;
  }

  lemma NoneLaid(i: nat)
    ensures Tiles([], i, i) && AllHeld([]) == []
  {
  }

  lemma TokLaid(a: Labelled, t: PTree, middle: nat)
    requires Rooted(a, t) && OrOk(a, t.or) && HasAnd(a, t.or, t.choice) && AndAt(a, t).cause.None?
    requires middle == if AndAt(a, t).predecessor.Some? then a.labels[AndAt(a, t).predecessor.value].end
                       else a.labels[t.or].origin
    ensures var x := TokValue(a, t.or, t.choice);
            Tiles([x], middle, a.labels[t.or].end) && Laid(x) && AllHeld([x]) == [a.toks[t.or][t.choice]]
  {
    RootedOr(a, t);
    OneTiles(TokValue(a, t.or, t.choice));
    OneHeld(TokValue(a, t.or, t.choice));
  }

  /** What is left in slot 0 spans what the top or-node spans, its arguments tile it at every depth, and its tokens are
      those the tree picks, in order and with their values. */
  lemma SlotZeroLaid(a: Labelled, t: PTree, slots: Slots)
    requires Rooted(a, t) && t.or == a.b.top
    ensures OrOk(a, t.or)
    ensures var x := Get(ApplyAll(slots, Program(a, t, 0)), 0);
            && Starts(x) == a.labels[t.or].origin && Ends(x) == a.labels[t.or].end
            && Laid(x) && Held(x) == Picked(a, t)
  {
    SlotZero(a, t, slots);
    ValuesLaid(a, t);
    hide Rooted, Values, ApplyAll, Program, Laid, Picked;
    var x := Get(ApplyAll(slots, Program(a, t, 0)), 0);
    assert [x][1..] == [] && [x][0] == x;
    OneHeld(x);
  }
}
