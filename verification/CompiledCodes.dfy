/** The valuator's rule table for a rewritten grammar has everything the valuator relies on. */
module CompiledCodes {
  import opened Arguments
  import opened Censuses
  import opened Chaf
  import opened ExternalGrammars
  import opened GrammarRewrites
  import opened Nullables
  import opened ParseTrees
  import opened Rewriting
  import opened Sequences
  import opened Trees
  import opened Valuations
  import opened Valuators

  /** For each internal rule the number of the external rule it was made from. */
  ghost function Sources(blocks: seq<Block>): (ids: seq<nat>)
    ensures |ids| == |Flat(blocks)|
  {
    if blocks == [] then []
    else
      var last := blocks[|blocks| - 1];
      Sources(blocks[..|blocks| - 1]) + seq(|last.irls|, _ => last.id)
  }

  /** The table lists the internal rules in order, the start rule last, each with the number of its external rule, and
      notes which left sides are virtual. */
  ghost predicate CodesFor(a: Labelled, blocks: seq<Block>, start: nat, v: nat) {
    var irls := Whole(blocks, start, v);
    && |a.codes| == |irls| && a.start == |irls| - 1
    && (forall i | 0 <= i < |irls| :: a.codes[i].irl == irls[i] && a.codes[i].virtualLhs == irls[i].lhs.Virtual?)
    && (forall i | 0 <= i < |irls| - 1 :: a.codes[i].rule == Sources(blocks)[i])
  }

  /** The internal rule at a position comes from the block its number names. */
  lemma {:induction false} SourceOf(blocks: seq<Block>, i: nat) returns (k: nat)
    requires i < |Flat(blocks)|
    ensures k < |blocks| && Flat(blocks)[i] in blocks[k].irls && Sources(blocks)[i] == blocks[k].id
    decreases |blocks|
  {
    var n := |blocks| - 1;
    var front := Flat(blocks[..n]);
    if i < |front| {
      k := SourceOf(blocks[..n], i);
    } else {
      k := n;
      assert Flat(blocks)[i] == blocks[n].irls[i - |front|];
    }
  }

  /** A rule step carries the number of the external rule whose left side has been completed. */
  lemma StepRule(c: Census, rules: seq<Xrl>, blocks: seq<Block>, start: nat, v: nat, a: Labelled, o: nat)
    returns (k: nat)
    requires BlocksOk(c, rules, |rules|, blocks, v) && CodesFor(a, blocks, start, v)
    requires OrOk(a, o) && !CodeOf(a, o).virtualLhs
    ensures k < |blocks| && CodeOf(a, o).rule == blocks[k].id < |rules| && rules[blocks[k].id] == blocks[k].rule
    ensures CodeOf(a, o).irl in blocks[k].irls && CodeOf(a, o).irl.lhs == Proper(blocks[k].rule.lhs)
  {
    var irls, i := Whole(blocks, start, v), a.labels[o].irl;
    assert irls[|irls| - 1] == StartIrl(start, v);
    k := SourceOf(blocks, i);
    hide BlockOk;
    BlockAt(c, rules, blocks, v, k);
    BlockIds(c, blocks[k], irls[i]);
  }

  /** The internal rules of a block count their symbols right. */
  lemma BlockCounted(n: nat, c: Census, b: Block)
    requires BlockOk(c, b) && Nullables.RuleOk(n, b.rule)
    ensures forall irl | irl in b.irls :: Counted(irl)
    ensures !b.rule.isSequence ==> b.rule.rhs != []
  {
    if b.rule.isSequence {
      SequenceCounted(AsSequence(b.rule), b.first);
    } else {
      var fs, suffix :| PieceBlock(c, b, fs, suffix);
      var q := SequenceRule(0, 0, false, 0, false, 1);
      RewriteCounts(WithKinds(c, b.rule), suffix, fs, q, b.first);
    }
  }

  lemma StartCounted(start: nat, v: nat)
    ensures Counted(StartIrl(start, v))
  {
    NoVirtuals([Proper(start)]);
  }

  /** What every internal rule of the grammar satisfies. */
  lemma WholeRule(n: nat, rules: seq<Xrl>, terminals: set<nat>, start: nat, c: Census, blocks: seq<Block>, v: nat,
      irl: Irl)
    requires Rewritten(n, rules, terminals, start, c, blocks, v) && irl in Whole(blocks, start, v)
    ensures Counted(irl) && Virtual(v) !in irl.rhs && !irl.lhs.Nulled?
  {
    hide BlockOk, Counted, Ready;
    FlatHas(blocks, irl);
    if irl in Flat(blocks) {
      var k :| 0 <= k < |blocks| && irl in blocks[k].irls;
      BlockAt(c, rules, blocks, v, k);
      BlockRule(n, rules, terminals, start, c, blocks[k]);
      BlockCounted(n, c, blocks[k]);
      BlockIds(c, blocks[k], irl);
    } else {
      StartCounted(start, v);
    }
  }

  lemma BlockRule(n: nat, rules: seq<Xrl>, terminals: set<nat>, start: nat, c: Census, b: Block)
    requires Ready(n, rules, terminals, start, c) && b.rule in rules
    ensures Nullables.RuleOk(n, b.rule)
  {
  }

  /** The rule table of a rewritten grammar is one the valuator accepts. */
  lemma WholeCodesOk(n: nat, rules: seq<Xrl>, terminals: set<nat>, start: nat, c: Census, blocks: seq<Block>, v: nat,
      a: Labelled)
    requires Rewritten(n, rules, terminals, start, c, blocks, v) && CodesFor(a, blocks, start, v)
    ensures CodesOk(a)
  {
    hide Rewritten, Counted;
    var irls := Whole(blocks, start, v);
    assert irls[|irls| - 1] == StartIrl(start, v);
    forall i | 0 <= i < |a.codes| ensures Counted(a.codes[i].irl) && Virtual(v) !in a.codes[i].irl.rhs {
      WholeRule(n, rules, terminals, start, c, blocks, v, irls[i]);
    }
  }

  /** And the virtual symbols of each rule's pieces belong to those pieces alone. */
  lemma WholeOwned(n: nat, rules: seq<Xrl>, terminals: set<nat>, start: nat, c: Census, blocks: seq<Block>, v: nat,
      a: Labelled, k: nat)
    requires Rewritten(n, rules, terminals, start, c, blocks, v) && CodesFor(a, blocks, start, v) && k < |blocks|
    ensures Owned(a, blocks[k].irls)
  {
    hide BlockOk, Ready;
    var irls := Whole(blocks, start, v);
    BlockAt(c, rules, blocks, v, k);
    forall irl, p, i | irl in blocks[k].irls && 0 <= p < |irl.rhs| && irl.rhs[p].Virtual? && 0 <= i < |a.codes|
      && a.codes[i].irl.lhs == irl.rhs[p]
      ensures a.codes[i].irl in blocks[k].irls
    {
      BlockIds(c, blocks[k], irl);
      assert irl.rhs[p] in irl.rhs;
      Owner(c, rules, blocks, start, v, irls[i]);
      assert InBlock(blocks, k, irls[i]);
    }
  }

  /** In a compiled grammar the step of a BNF rule carries its number and gets one value for each symbol of that rule,
      in order. */
  lemma CompiledArguments(n: nat, rules: seq<Xrl>, terminals: set<nat>, start: nat, c: Census, blocks: seq<Block>,
      v: nat, a: Labelled, t: PTree)
    returns (nulls: set<nat>)
    requires Rewritten(n, rules, terminals, start, c, blocks, v) && CodesFor(a, blocks, start, v)
    requires Rooted(a, t) && OrOk(a, t.or) && Complete(a, t.or) && !CodeOf(a, t.or).virtualLhs
    requires CodeOf(a, t.or).rule < |rules| ==> !rules[CodeOf(a, t.or).rule].isSequence
    ensures var r := CodeOf(a, t.or).rule;
            && r < |rules| && CodeOf(a, t.or).irl.lhs == Proper(rules[r].lhs)
            && (forall pos | pos in nulls :: pos < |rules[r].rhs| && KindOf(c, rules[r].rhs[pos]) == ProperNullable)
            && AllDenote(a, Matched(a, t), Slice(WithKinds(c, rules[r]), 0, |rules[r].rhs|, nulls))
  {
    hide BlockOk, CodesFor, Ready, BlocksOk, AllDenote, Owned;
    var k := StepRule(c, rules, blocks, start, v, a, t.or);
    BlockAt(c, rules, blocks, v, k);
    BlockRule(n, rules, terminals, start, c, blocks[k]);
    BlockCounted(n, c, blocks[k]);
    WholeOwned(n, rules, terminals, start, c, blocks, v, a, k);
    nulls := BlockArguments(c, blocks[k], a, t);
  }

  lemma BlockArguments(c: Census, b: Block, a: Labelled, t: PTree) returns (nulls: set<nat>)
    requires BlockOk(c, b) && !b.rule.isSequence && b.rule.rhs != [] && Owned(a, b.irls)
    requires Rooted(a, t) && OrOk(a, t.or) && Complete(a, t.or)
    requires CodeOf(a, t.or).irl in b.irls && CodeOf(a, t.or).irl.lhs == Proper(b.rule.lhs)
    ensures forall pos | pos in nulls :: pos < |b.rule.rhs| && KindOf(c, b.rule.rhs[pos]) == ProperNullable
    ensures AllDenote(a, Matched(a, t), Slice(WithKinds(c, b.rule), 0, |b.rule.rhs|, nulls))
    ensures exists fs :: FactorsOf(WithKinds(c, b.rule), fs, 0) && nulls <= ToSet(fs)
  {
    hide Rooted, Complete, Owned, AllDenote, Used;
    var fs, suffix :| PieceBlock(c, b, fs, suffix);
    nulls := RuleArguments(a, t, WithKinds(c, b.rule), suffix, fs, b.first);
    assert forall pos | pos in nulls :: pos in ToSet(fs) && pos in fs;
  }

  /** And that of a sequence carries its number and gets its items and separators. */
  lemma CompiledSequence(n: nat, rules: seq<Xrl>, terminals: set<nat>, start: nat, c: Census, blocks: seq<Block>,
      v: nat, a: Labelled, t: PTree)
    returns (body: seq<Nsy>)
    requires Rewritten(n, rules, terminals, start, c, blocks, v) && CodesFor(a, blocks, start, v)
    requires Rooted(a, t) && OrOk(a, t.or) && Complete(a, t.or) && !CodeOf(a, t.or).virtualLhs
    requires CodeOf(a, t.or).rule < |rules| ==> rules[CodeOf(a, t.or).rule].isSequence
    ensures var r := CodeOf(a, t.or).rule;
            && r < |rules| && CodeOf(a, t.or).irl.lhs == Proper(rules[r].lhs) && WellFormed(rules[r])
            && AnyList(AsSequence(rules[r]), body) && AllDenote(a, Matched(a, t), body)
  {
    hide BlockOk, CodesFor, Ready, BlocksOk, AllDenote, Owned, AnyList;
    var k := StepRule(c, rules, blocks, start, v, a, t.or);
    BlockAt(c, rules, blocks, v, k);
    WholeOwned(n, rules, terminals, start, c, blocks, v, a, k);
    body := BlockSequence(c, blocks[k], a, t);
  }

  lemma BlockSequence(c: Census, b: Block, a: Labelled, t: PTree) returns (body: seq<Nsy>)
    requires BlockOk(c, b) && b.rule.isSequence && Owned(a, b.irls)
    requires Rooted(a, t) && OrOk(a, t.or) && Complete(a, t.or)
    requires CodeOf(a, t.or).irl in b.irls && CodeOf(a, t.or).irl.lhs == Proper(b.rule.lhs)
    ensures WellFormed(b.rule) && AnyList(AsSequence(b.rule), body) && AllDenote(a, Matched(a, t), body)
  {
    var q := AsSequence(b.rule);
    hide Rooted, Complete, Owned, AllDenote, Used, SequenceIrls;
    var count, trailing := SequenceArguments(a, t, q, b.first);
    body := Items(q, count) + if trailing then [Proper(q.separator)] else [];
    assert Items(q, count) + [] == Items(q, count);
    assert ListBody(q, count, body);
  }

  // ---------------------------------------------------------------- values are derivations

  /** The value is one of the external symbol. */
  ghost predicate OneOf(rules: seq<Xrl>, c: Census, x: Value, symbol: Nsy) {
    match x
    case Token(s, _, _, _) => symbol == Proper(s)
    case Null(s, _) => symbol == Proper(s) && s in c.nullable
    case Applied(r, _, _, _) => r < |rules| && symbol == Proper(rules[r].lhs)
  }

  /** The arguments are values of the symbols of a body of the rule. */
  ghost predicate Applies(rules: seq<Xrl>, c: Census, r: nat, args: seq<Value>, body: seq<Nsy>) {
    && r < |rules| && KeptBody(rules[r], c.productive, body)
    && |args| == |body| && forall k | 0 <= k < |args| :: OneOf(rules, c, args[k], body[k])
  }

  /** Every rule in the value, at any depth, is applied to values of its own symbols. */
  ghost predicate IsDerivation(rules: seq<Xrl>, c: Census, x: Value) {
    x.Applied? ==>
      && (exists body :: Applies(rules, c, x.rule, x.args, body))
      && forall k | 0 <= k < |x.args| :: IsDerivation(rules, c, x.args[k])
  }

  /** A number in the table names a rule with the left side given there. */
  lemma LhsOf(c: Census, rules: seq<Xrl>, blocks: seq<Block>, start: nat, v: nat, a: Labelled, i: nat)
    requires BlocksOk(c, rules, |rules|, blocks, v) && CodesFor(a, blocks, start, v)
    requires i < |a.codes| && !a.codes[i].irl.lhs.Virtual?
    ensures a.codes[i].rule < |rules| && a.codes[i].irl.lhs == Proper(rules[a.codes[i].rule].lhs)
  {
    var irls := Whole(blocks, start, v);
    assert irls[|irls| - 1] == StartIrl(start, v);
    var k := SourceOf(blocks, i);
    hide BlockOk;
    BlockAt(c, rules, blocks, v, k);
    BlockIds(c, blocks[k], irls[i]);
  }

  /** What denotes a marked symbol is one of the external symbol. */
  lemma DenotesOne(c: Census, rules: seq<Xrl>, blocks: seq<Block>, start: nat, v: nat, a: Labelled, x: Value, s: Nsy)
    requires BlocksOk(c, rules, |rules|, blocks, v) && CodesFor(a, blocks, start, v)
    requires Denotes(a, x, s) && !s.Virtual? && (s.Nulled? ==> s.xsy in c.nullable)
    ensures OneOf(rules, c, x, Proper(s.xsy))
  {
    hide BlocksOk, CodesFor;
    if x.Applied? {
      var i :| 0 <= i < |a.codes| && a.codes[i].rule == x.rule && a.codes[i].irl.lhs == s;
      LhsOf(c, rules, blocks, start, v, a, i);
    }
  }

  /** A rule step is given values of a body of its rule. */
  lemma StepApplies(n: nat, rules: seq<Xrl>, terminals: set<nat>, start: nat, c: Census, blocks: seq<Block>, v: nat,
      a: Labelled, t: PTree)
    requires Rewritten(n, rules, terminals, start, c, blocks, v) && CodesFor(a, blocks, start, v)
    requires Rooted(a, t) && OrOk(a, t.or) && Complete(a, t.or) && !CodeOf(a, t.or).virtualLhs
    ensures exists body :: Applies(rules, c, CodeOf(a, t.or).rule, Matched(a, t), body)
  {
    hide BlockOk, CodesFor, Ready, BlocksOk, Owned, Rooted, Denotes, KeptBody, OneOf, Matched;
    var k := StepRule(c, rules, blocks, start, v, a, t.or);
    var out := BlockBody(n, rules, terminals, start, c, blocks, v, a, k, t);
    var args, body := Matched(a, t), Unmarked(out);
    forall p | 0 <= p < |args| ensures OneOf(rules, c, args[p], body[p]) {
      assert out[p] in out;
      DenotesOne(c, rules, blocks, start, v, a, args[p], out[p]);
    }
    assert Applies(rules, c, CodeOf(a, t.or).rule, args, body);
  }

  lemma BlockBody(n: nat, rules: seq<Xrl>, terminals: set<nat>, start: nat, c: Census, blocks: seq<Block>, v: nat,
      a: Labelled, k: nat, t: PTree)
    returns (out: seq<Nsy>)
    requires Rewritten(n, rules, terminals, start, c, blocks, v) && CodesFor(a, blocks, start, v) && k < |blocks|
    requires Rooted(a, t) && OrOk(a, t.or) && Complete(a, t.or)
    requires CodeOf(a, t.or).irl in blocks[k].irls && CodeOf(a, t.or).irl.lhs == Proper(blocks[k].rule.lhs)
    ensures Marked(c, out) && KeptBody(blocks[k].rule, c.productive, Unmarked(out)) && AllDenote(a, Matched(a, t), out)
  {
    hide CodesFor, Ready, BlocksOk, AllDenote, Owned, Rooted, Matched, Used;
    var b := blocks[k];
    BlockAt(c, rules, blocks, v, k);
    WholeOwned(n, rules, terminals, start, c, blocks, v, a, k);
    if b.rule.isSequence {
      out := BlockSequence(c, b, a, t);
      var count: nat :| ListBody(AsSequence(b.rule), count, out);
      ListKept(c, b, count, out);
    } else {
      BlockRule(n, rules, terminals, start, c, b);
      BlockCounted(n, c, b);
      var nulls := BlockArguments(c, b, a, t);
      var fs :| FactorsOf(WithKinds(c, b.rule), fs, 0) && nulls <= ToSet(fs);
      out := Slice(WithKinds(c, b.rule), 0, |b.rule.rhs|, nulls);
      SliceBody(n, rules, terminals, start, c, b.rule, fs, nulls);
    }
  }

  lemma {:induction false} ValuesDerive(n: nat, rules: seq<Xrl>, terminals: set<nat>, start: nat, c: Census,
      blocks: seq<Block>, v: nat, a: Labelled, t: PTree)
    requires Rewritten(n, rules, terminals, start, c, blocks, v) && CodesFor(a, blocks, start, v) && Rooted(a, t)
    ensures forall x | x in Values(a, t) :: IsDerivation(rules, c, x)
    decreases t, 1
  {
    hide Rewritten, CodesFor, Rooted, Matched, Applies;
    RootedOr(a, t);
    MatchedDerive(n, rules, terminals, start, c, blocks, v, a, t);
    if Complete(a, t.or) && !CodeOf(a, t.or).virtualLhs {
      StepApplies(n, rules, terminals, start, c, blocks, v, a, t);
      var args := Matched(a, t);
      assert forall k | 0 <= k < |args| :: args[k] in args;
    }
  }

  lemma {:induction false} MatchedDerive(n: nat, rules: seq<Xrl>, terminals: set<nat>, start: nat, c: Census,
      blocks: seq<Block>, v: nat, a: Labelled, t: PTree)
    requires Rewritten(n, rules, terminals, start, c, blocks, v) && CodesFor(a, blocks, start, v) && Rooted(a, t)
    ensures forall x | x in Matched(a, t) :: IsDerivation(rules, c, x)
    decreases t, 0
  {
    hide Rewritten, CodesFor, Rooted, Applies, Values;
    RootedOr(a, t);
    if AndAt(a, t).predecessor.Some? {
      ValuesDerive(n, rules, terminals, start, c, blocks, v, a, PredecessorTree(a, t));
    }
    if AndAt(a, t).cause.Some? {
      ValuesDerive(n, rules, terminals, start, c, blocks, v, a, CauseTree(a, t));
    }
  }

  /** For a compiled grammar, every parse tree compiled and run leaves a derivation from the start symbol by the
      external rules in slot 0. */
  lemma SlotZeroDerives(n: nat, rules: seq<Xrl>, terminals: set<nat>, start: nat, c: Census, blocks: seq<Block>, v: nat,
      a: Labelled, t: PTree, slots: Slots)
    requires Rewritten(n, rules, terminals, start, c, blocks, v) && CodesFor(a, blocks, start, v)
    requires Rooted(a, t) && t.or == a.b.top
    ensures var x := Get(ApplyAll(slots, Program(a, t, 0)), 0);
            OneOf(rules, c, x, Proper(start)) && IsDerivation(rules, c, x)
  {
    SlotZero(a, t, slots);
    ValuesDerive(n, rules, terminals, start, c, blocks, v, a, t);
    TopDenotes(blocks, start, v, a, t);
    hide *;
    var x := Get(ApplyAll(slots, Program(a, t, 0)), 0);
    assert [x][0] == x;
    DenotesOne(c, rules, blocks, start, v, a, x, Proper(start));
  }

  lemma TopDenotes(blocks: seq<Block>, start: nat, v: nat, a: Labelled, t: PTree)
    requires CodesFor(a, blocks, start, v) && Rooted(a, t) && t.or == a.b.top
    ensures AllDenote(a, Values(a, t), [Proper(start)])
  {
    RootedOr(a, t);
    MatchedDenotes(a, t);
    var irls := Whole(blocks, start, v);
    assert irls[|irls| - 1] == StartIrl(start, v);
    assert Spelled(a, t) == [Proper(start)];
  }
}
