/** What the recognizer's sets mean, and why Leo items cannot be noticed from outside. */
module Observability {
  import opened Grammars
  import opened Derivations
  import opened EarleySets
  import opened LeoWalks
  import opened PostdotItems
  import opened Recognizers
  import opened SourceLinks

  /** An item with symbols left after its dot is in the set at `j` exactly when it is right, Leo items or not. */
  lemma IncompleteExact(g: Grammar, ts: set<Token>, sets: Sets, n: nat, j: nat, x: Item)
    requires RulesOk(g) && SetsOk(g, ts, sets, n) && j < n
    requires InRange(g, x) && !IsComplete(g, x)
    ensures j in sets && x in sets[j].items <==> Valid(g, ts, x, j)
  {
    if Valid(g, ts, x, j) {
      EarlierItem(g, ts, sets, n, x, j);
    }
    assert j in sets ==> SetOk(g, ts, sets, j);
  }

  /** Without Leo items a set holds exactly the right items. */
  lemma EarleyExact(g: Grammar, ts: set<Token>, sets: Sets, n: nat, j: nat, x: Item)
    requires RulesOk(g) && SetsOk(g, ts, sets, n) && j < n && AllNoLims(sets)
    ensures j in sets && x in sets[j].items <==> Valid(g, ts, x, j)
  {
    if j in sets {
      assert SetOk(g, ts, sets, j);
      assert Valid(g, ts, x, j) ==> Covered(g, sets, sets[j].items, x);
    } else {
      assert NoItems(g, ts, j);
    }
  }

  /** With Leo items every item is still right, and a right item that is missing is a completion whose
      left side has a Leo item at its origin, the top of which is present instead. */
  lemma LeoExact(g: Grammar, ts: set<Token>, sets: Sets, n: nat, j: nat, x: Item)
    requires RulesOk(g) && SetsOk(g, ts, sets, n) && j < n
    ensures j in sets && x in sets[j].items ==> Valid(g, ts, x, j)
    ensures Valid(g, ts, x, j) ==> j in sets && (x in sets[j].items || LeoCovered(g, sets, sets[j].items, x))
  {
    if j in sets {
      assert SetOk(g, ts, sets, j);
      assert Valid(g, ts, x, j) ==> Covered(g, sets, sets[j].items, x);
    } else {
      assert NoItems(g, ts, j);
    }
  }

  function StartDone(g: Grammar): Item
    requires RulesOk(g)
  {
    Item(g.start, |g.irls[g.start].rhs|, 0)
  }

  /** The parse succeeds at `j` exactly when the accepted tokens spell a sentence from 0 to `j`. */
  lemma AcceptanceExact(g: Grammar, ts: set<Token>, sets: Sets, n: nat, j: nat)
    requires RulesOk(g) && SetsOk(g, ts, sets, n) && j < n
    ensures j in sets && StartDone(g) in sets[j].items <==>
            Spanned(g, ts, StartDone(g), j)
  {
    var x := StartDone(g);
    assert Predicts(g, ts, g.start, 0, Root);
    assert Predicted(g, ts, x.irl, x.origin);
    assert Valid(g, ts, x, j) <==> Spanned(g, ts, x, j);
    if j in sets {
      assert SetOk(g, ts, sets, j);
      assert Valid(g, ts, x, j) ==> Covered(g, sets, sets[j].items, x);
      assert 0 in sets ==> !HasLim(sets[0].postdot, g.irls[g.start].lhs) by {
        if 0 in sets {
          StartHasNoLim(g, ts, sets, n, 0);
        }
      }
      assert !LeoCovered(g, sets, sets[j].items, x);
      assert x in sets[j].items <==> Valid(g, ts, x, j);
    } else {
      assert NoItems(g, ts, j);
      assert !Valid(g, ts, x, j);
    }
  }

  lemma StartHasNoLim(g: Grammar, ts: set<Token>, sets: Sets, n: nat, i: nat)
    requires RulesOk(g) && SetsOk(g, ts, sets, n) && i in sets
    ensures !HasLim(sets[i].postdot, g.irls[g.start].lhs)
  {
    var a := g.irls[g.start].lhs;
    assert SetOk(g, ts, sets, i);
    if HasLim(sets[i].postdot, a) {
      LimIsNotStart(g, sets[i].items, sets[i].postdot, a);
    }
  }

  /** The same tokens leave the same trace: with Leo items (`on`) and without (`off`), every set has the
      same incomplete items, the completions of `on` are among those of `off`, the postdot symbols agree,
      and the completed start rule is in both or in neither. */
  ghost predicate LooksTheSame(g: Grammar, on: Sets, off: Sets)
    requires RulesOk(g)
  {
    && on.Keys == off.Keys
    && forall j | j in on ::
         && (forall x | InRange(g, x) && !IsComplete(g, x) :: x in on[j].items <==> x in off[j].items)
         && (forall x | x in on[j].items :: x in off[j].items)
         && (StartDone(g) in on[j].items <==> StartDone(g) in off[j].items)
         && on[j].postdot.Keys == off[j].postdot.Keys
  }

  lemma LeoChangesNothing(g: Grammar, ts: set<Token>, on: Sets, off: Sets, n: nat)
    requires RulesOk(g) && SetsOk(g, ts, on, n) && SetsOk(g, ts, off, n)
    requires on.Keys == off.Keys && AllNoLims(off)
    ensures LooksTheSame(g, on, off)
  {
    forall j | j in on
      ensures forall x | InRange(g, x) && !IsComplete(g, x) :: x in on[j].items <==> x in off[j].items
      ensures forall x | x in on[j].items :: x in off[j].items
      ensures StartDone(g) in on[j].items <==> StartDone(g) in off[j].items
      ensures on[j].postdot.Keys == off[j].postdot.Keys
    {
      assert j < n;
      forall x ensures InRange(g, x) && !IsComplete(g, x) ==> (x in on[j].items <==> x in off[j].items)
               ensures x in on[j].items ==> x in off[j].items
      {
        EarleyExact(g, ts, off, n, j, x);
        LeoExact(g, ts, on, n, j, x);
        if InRange(g, x) && !IsComplete(g, x) {
          IncompleteExact(g, ts, on, n, j, x);
        }
      }
      AcceptanceExact(g, ts, on, n, j);
      AcceptanceExact(g, ts, off, n, j);
      forall a: nat ensures a in on[j].postdot <==> a in off[j].postdot {
        WaitersExact(g, ts, on, n, j, a);
        WaitersExact(g, ts, off, n, j, a);
      }
    }
  }

  // ---------------------------------------------------------------- prediction

  /** An item that is in the set before prediction: one with something before its dot, or the first item of all. */
  ghost predicate Kernel(g: Grammar, ts: set<Token>, y: Item, j: nat) {
    Valid(g, ts, y, j) && (y.dot > 0 || (j == 0 && y == Item(g.start, 0, 0)))
  }

  ghost predicate KernelPredicts(g: Grammar, ts: set<Token>, y: Item, r: nat, j: nat)
    requires GrammarOk(g)
  {
    && Kernel(g, ts, y, j) && InRange(g, y) && !IsComplete(g, y)
    && Postdot(g, y) < g.symbolCount && r in g.predictions[Postdot(g, y)]
  }

  lemma {:induction false} OneStepBack(g: Grammar, ts: set<Token>, r: nat, j: nat, s: Spine)
    requires GrammarOk(g) && Predicts(g, ts, r, j, s)
    ensures (r == g.start && j == 0) || exists y :: KernelPredicts(g, ts, y, r, j)
    decreases s
  {
    if s.Under? {
      var y := s.parent;
      SpanOrder(g, ts, y.irl, y.dot, y.origin, j, s.path);
      assert Predicted(g, ts, y.irl, y.origin) && Spanned(g, ts, y, j);
      PredictionsHoldDirect(g, Postdot(g, y), r);
      if Kernel(g, ts, y, j) {
        assert KernelPredicts(g, ts, y, r, j);
      } else {
        OneStepBack(g, ts, y.irl, j, s.up);
        var z :| KernelPredicts(g, ts, z, y.irl, j);
        PredictionsAreClosed(g, Postdot(g, z), y.irl, r);
        assert KernelPredicts(g, ts, z, r, j);
      }
    }
  }

  /** One pass over the items there before prediction finds every rule the fixpoint of prediction finds. */
  lemma OneShotPrediction(g: Grammar, ts: set<Token>, r: nat, j: nat)
    requires GrammarOk(g)
    ensures Valid(g, ts, Item(r, 0, j), j) <==>
            (r == g.start && j == 0) || exists y :: KernelPredicts(g, ts, y, r, j)
  {
    if Valid(g, ts, Item(r, 0, j), j) {
      var s :| Predicts(g, ts, r, j, s);
      OneStepBack(g, ts, r, j, s);
    } else if r == g.start && j == 0 {
      ValidStart(g, ts);
    } else if y :| KernelPredicts(g, ts, y, r, j) {
      var chain: seq<nat> :| |chain| > 0 && LeftChain(g, chain) && g.irls[chain[0]].lhs == Postdot(g, y)
          && chain[|chain| - 1] == r;
      ValidPredictions(g, ts, y, chain, j);
    }
  }

  // ---------------------------------------------------------------- source links

  /** Between calls the links of a finished set are its steps: each item scanned or completed has at least one,
      every step by a token or a completion that leads to an item is linked to it once, and nothing else is. */
  lemma SourcesExact(r: Recognizer, j: nat, x: Item, l: Link)
    requires r.Valid() && j in r.sets && j > 0
    ensures j in r.links && (x in r.links[j] <==> x in r.sets[j].items && x.dot > 0)
    ensures x in r.links[j] ==> r.links[j][x] != NoSource
    ensures x in r.links[j] ==>
              Links(r.links[j][x])[l] ==
                if IsVia(r.g, r.tokens, j, r.sets[j].items, l.via) && StepTrue(r.g, r.sets, l.via, x, l.predecessor)
                    then 1 else 0
  {
    assert LinksOk(r.g, r.tokens, r.sets, r.links);
    assert LinksExact(r.g, r.tokens, r.sets, j, r.sets[j].items, r.links[j]);
    assert Has(r.links[j], x, l) <==>
        IsVia(r.g, r.tokens, j, r.sets[j].items, l.via) && StepTrue(r.g, r.sets, l.via, x, l.predecessor);
  }

  // ---------------------------------------------------------------- whole runs

  datatype Command = Start | Read(xsy: int, value: int, length: int) | Close

  datatype Reply = Answered(code: Code) | Closed(outcome: Outcome)

  ghost predicate InStep(a: Recognizer, b: Recognizer)
    reads a, b
  {
    && a.Valid() && b.Valid() && a.g == b.g && a.lex == b.lex && a.useLeo && !b.useLeo
    && a.phase == b.phase && a.tokens == b.tokens && a.current == b.current && a.furthest == b.furthest
    && a.sets.Keys == b.sets.Keys
    && LooksTheSame(a.g, a.sets, b.sets)
  }

  lemma StillTheSame(g: Grammar, ts: set<Token>, on: Recognizer, off: Recognizer)
    requires on.Valid() && off.Valid() && on.g == off.g == g && !off.useLeo
    requires on.tokens == off.tokens == ts && on.current == off.current
    requires on.phase.BeforeInput? <==> off.phase.BeforeInput?
    ensures on.sets.Keys == off.sets.Keys
    ensures LooksTheSame(g, on.sets, off.sets)
  {
    if on.phase != BeforeInput {
      assert forall i: nat :: i in on.sets <==> i in off.sets;
      MemoOff(g, off.sets);
      LeoChangesNothing(g, ts, on.sets, off.sets, on.current + 1);
    }
  }

  /** Recognizers whose sets look the same accept the same tokens. */
  lemma SameVerdict(g: Grammar, on: Sets, off: Sets, phase: Phase, lex: Lexicon, ts: set<Token>, current: nat,
      xsy: int, value: int, length: int)
    requires RulesOk(g) && LooksTheSame(g, on, off)
    ensures AlternativeCode(phase, lex, on, ts, current, xsy, value, length)
         == AlternativeCode(phase, lex, off, ts, current, xsy, value, length)
  {
    assert current in on <==> current in off;
    if current in on && TokenCode(phase, lex, xsy, value, length) == NoError {
      var a := lex.nsyOf[xsy];
      assert a in on[current].postdot.Keys <==> a in off[current].postdot.Keys;
    }
  }

  lemma SameExhaustion(on: Recognizer, off: Recognizer, outcome: Outcome)
    requires RulesOk(on.g) && LooksTheSame(on.g, on.sets, off.sets)
    requires on.lex == off.lex && on.current == off.current && on.tokens == off.tokens
    ensures on.NowExhausted(outcome) <==> off.NowExhausted(outcome)
  {
    assert on.current in on.sets <==> on.current in off.sets;
  }

  lemma GrammarOfValid(r: Recognizer)
    requires r.Valid()
    ensures RulesOk(r.g)
  {
  }

  method Step(r: Recognizer, c: Command) returns (reply: Reply)
    requires r.Valid()
    modifies r
    ensures r.Valid() && r.useLeo == old(r.useLeo)
    ensures c.Start? ==>
              && reply == Answered(if old(r.phase) == BeforeInput then NoError else RecceStarted)
              && r.phase == (if old(r.phase) == BeforeInput then DuringInput else old(r.phase))
              && r.current == old(r.current) && r.furthest == old(r.furthest) && r.tokens == old(r.tokens)
    ensures c.Read? ==>
              && reply == Answered(AlternativeCode(r.phase, r.lex, r.sets, old(r.tokens), r.current, c.xsy, c.value,
                  c.length))
              && r.phase == old(r.phase) && r.current == old(r.current) && r.sets == old(r.sets)
              && (reply == Answered(NoError) ==>
                    && c.xsy in r.lex.nsyOf && c.length > 0
                    && r.tokens == old(r.tokens) + {Token(r.lex.nsyOf[c.xsy], r.current, r.current + c.length)}
                    && r.furthest == if r.current + c.length > old(r.furthest) then r.current + c.length
                        else old(r.furthest))
              && (reply != Answered(NoError) ==> r.tokens == old(r.tokens) && r.furthest == old(r.furthest))
    ensures c.Close? ==> r.tokens == old(r.tokens)
    ensures c.Close? && old(r.phase) != DuringInput ==>
              && reply == Closed(Failed(RecceNotAcceptingInput))
              && r.phase == old(r.phase) && r.current == old(r.current) && r.furthest == old(r.furthest)
    ensures c.Close? && old(r.phase) == DuringInput ==>
              && r.current == old(r.current) + 1 && r.furthest == old(r.furthest)
              && reply == Closed(if r.current > r.furthest then Failed(ParseExhausted)
                                 else if EndsAt(r.tokens, r.current) then SetMade else NoSet)
              && r.phase == if r.NowExhausted(reply.outcome) then AfterInput else DuringInput
  {
    hide Recognizer.Valid, Recognizer.NowExhausted, AlternativeCode, EndsAt, NoLims;
    match c {
      case Start =>
        var code := r.StartInput();
        reply := Answered(code);
      case Read(xsy, value, length) =>
        var code := r.ReadAlternative(xsy, value, length);
        reply := Answered(code);
      case Close =>
        var outcome := r.EarlemeComplete();
        reply := Closed(outcome);
    }
  }

  /** Drive two recognizers, one with Leo items and one without, through the same calls: every call gives
      both the same answer, and their Earley sets look the same throughout. */
  method Lockstep(a: Recognizer, b: Recognizer, commands: seq<Command>) returns (fromA: seq<Reply>, fromB: seq<Reply>)
    requires a != b && InStep(a, b)
    modifies a, b
    ensures InStep(a, b) && |fromA| == |commands|
    ensures fromA == fromB
  {
    fromA, fromB := [], [];
    for k := 0 to |commands|
      invariant InStep(a, b) && fromA == fromB && |fromA| == k
    {
      var replyA, replyB := StepBoth(a, b, commands[k]);
      fromA, fromB := fromA + [replyA], fromB + [replyB];
    }
  }

  method StepBoth(a: Recognizer, b: Recognizer, c: Command) returns (reply: Reply, other: Reply)
    requires a != b && InStep(a, b)
    modifies a, b
    ensures InStep(a, b) && reply == other
  {
    hide Recognizer.Valid, Recognizer.NowExhausted, LooksTheSame, EndsAt, AlternativeCode;
    GrammarOfValid(a);
    if c.Read? {
      SameVerdict(a.g, a.sets, b.sets, a.phase, a.lex, a.tokens, a.current, c.xsy, c.value, c.length);
    }
    reply := Step(a, c);
    other := Step(b, c);
    StillTheSame(a.g, a.tokens, a, b);
    if c.Close? && reply.Closed? {
      SameExhaustion(a, b, reply.outcome);
    }
  }

  // ---------------------------------------------------------------- every reachable set

  /** Between calls no set holds two items with the same rule, dot and origin, so an item's links are its own. */
  lemma ItemsUnique(r: Recognizer, j: nat, p: nat, q: nat)
    requires r.Valid() && j in r.sets && p < q < |r.sets[j].items|
    ensures var x, y := r.sets[j].items[p], r.sets[j].items[q];
            x.irl != y.irl || x.dot != y.dot || x.origin != y.origin
  {
    hide GrammarOk, MemoExact, LinksOk;
    assert Distinct(r.sets[j].items);
  }

  // ---------------------------------------------------------------- the memo over whole runs

  /** Between calls a recognizer that uses Leo items has them for exactly the eligible symbols of every set but the
      first, and each one's top is the end of the one chain of completions it stands for. */
  lemma RecognizerMemo(r: Recognizer, j: nat, a: nat)
    requires r.Valid() && j in r.sets
    ensures HasLim(r.sets[j].postdot, a) <==> r.useLeo && j > 0 && Eligible(r.g, r.sets[j].items, a)
    ensures HasLim(r.sets[j].postdot, a) ==>
              var l := LimAt(r.sets[j].postdot, a);
              SoleFinal(r.g, r.sets[j].items, a, l.base) && EndsChain(r.g, r.sets, l)
  {
    hide CompletionChain, EndsChain, SoleFinal, HasLim;
    assert MemoExact(r.g, r.sets, r.useLeo);
    if HasLim(r.sets[j].postdot, a) {
      MemoIsChain(r.g, r.tokens, r.sets, r.current + 1, j, a);
    }
  }
}
