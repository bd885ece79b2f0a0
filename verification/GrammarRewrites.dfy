/** The rewrite of a whole grammar, and why it keeps the language. */
module GrammarRewrites {
  import opened Censuses
  import opened Chaf
  import opened Derivations
  import opened ExternalGrammars
  import opened Languages
  import opened Nullables
  import opened Rewriting
  import opened Sequences

  function KindOf(c: Census, a: nat): Kind {
    if a in c.nulling then Nulling else if a in c.nullable then ProperNullable else NonNullable
  }

  /** A BNF rule with the kinds of its symbols. */
  function WithKinds(c: Census, rule: Xrl): (r: Rule)
    ensures Chaf.RuleOk(r) && r.lhs == rule.lhs && r.rhs == rule.rhs
    ensures forall k | 0 <= k < |r.rhs| :: r.kinds[k] == KindOf(c, r.rhs[k])
  {
    Rule(rule.lhs, rule.rhs, seq(|rule.rhs|, k requires 0 <= k < |rule.rhs| => KindOf(c, rule.rhs[k])))
  }

  // ---------------------------------------------------------------- the rewritten grammar, rule by rule

  /** One used rule with its number, and the internal rules it becomes. Its virtual symbols are those from `first` up
      to `next`. */
  datatype Block = Block(id: nat, rule: Xrl, first: nat, next: nat, irls: seq<Irl>)

  ghost predicate PieceBlock(c: Census, b: Block, fs: seq<nat>, suffix: nat) {
    var rule := WithKinds(c, b.rule);
    && FactorsOf(rule, fs, 0) && SuffixOf(rule, suffix)
    && b.irls == RuleIrls(rule, suffix, fs, b.first) && b.next == b.first + VirtualsUsed(suffix, fs)
  }

  ghost predicate BlockOk(c: Census, b: Block) {
    && WellFormed(b.rule) && Used(c, b.rule)
    && if b.rule.isSequence
       then b.irls == SequenceIrls(AsSequence(b.rule), b.first) && b.next == b.first + 1
       else exists fs, suffix :: PieceBlock(c, b, fs, suffix)
  }

  ghost function Flat(blocks: seq<Block>): seq<Irl> {
    if blocks == [] then [] else Flat(blocks[..|blocks| - 1]) + blocks[|blocks| - 1].irls
  }

  /** The blocks of the rules before `count`, in order, with nothing shared between them. */
  ghost predicate BlocksOk(c: Census, rules: seq<Xrl>, count: nat, blocks: seq<Block>, virtuals: nat)
    requires count <= |rules|
  {
    && (forall k | 0 <= k < |blocks| ::
        && BlockOk(c, blocks[k]) && blocks[k].first <= blocks[k].next <= virtuals
        && blocks[k].id < count && rules[blocks[k].id] == blocks[k].rule)
    && (forall k, m | 0 <= k < m < |blocks| :: blocks[k].next <= blocks[m].first && blocks[k].id < blocks[m].id)
    && (forall r | 0 <= r < count && Used(c, rules[r]) :: exists k :: 0 <= k < |blocks| && blocks[k].rule == rules[r])
  }

  lemma {:induction false} FlatHas(blocks: seq<Block>, irl: Irl)
    ensures irl in Flat(blocks) <==> exists k :: 0 <= k < |blocks| && irl in blocks[k].irls
    decreases |blocks|
  {
    if blocks != [] {
      var front := blocks[..|blocks| - 1];
      FlatHas(front, irl);
      if k :| 0 <= k < |blocks| && irl in blocks[k].irls {
        assert k < |front| ==> irl in front[k].irls;
      }
      if irl in Flat(front) {
        var k :| 0 <= k < |front| && irl in front[k].irls;
        assert irl in blocks[k].irls;
      }
    }
  }

  lemma BlockAdded(c: Census, rules: seq<Xrl>, r: nat, blocks: seq<Block>, virtuals: nat, b: Block)
    requires r < |rules| && BlocksOk(c, rules, r, blocks, virtuals)
    requires BlockOk(c, b) && b.id == r && b.rule == rules[r] && b.first == virtuals && b.first <= b.next
    ensures BlocksOk(c, rules, r + 1, blocks + [b], b.next)
    ensures Flat(blocks + [b]) == Flat(blocks) + b.irls
  {
    hide BlockOk, Used;
    var more := blocks + [b];
    assert more[..|more| - 1] == blocks && more[|blocks|] == b;
    forall q | 0 <= q < r + 1 && Used(c, rules[q]) ensures exists k :: 0 <= k < |more| && more[k].rule == rules[q] {
      if q < r {
        var k :| 0 <= k < |blocks| && blocks[k].rule == rules[q];
        assert more[k].rule == rules[q];
      }
    }
  }

  lemma NoBlocks(c: Census, rules: seq<Xrl>)
    ensures BlocksOk(c, rules, 0, [], 0)
  {
  }

  lemma BlockSkipped(c: Census, rules: seq<Xrl>, r: nat, blocks: seq<Block>, virtuals: nat)
    requires r < |rules| && BlocksOk(c, rules, r, blocks, virtuals) && !Used(c, rules[r])
    ensures BlocksOk(c, rules, r + 1, blocks, virtuals)
  {
    hide BlockOk, Used;
  }

  /** Rewrite every used rule in turn. */
  method RewriteRules(n: nat, rules: seq<Xrl>, c: Census, rewriter: Rewriter) returns (ghost blocks: seq<Block>)
    requires RulesOk(n, rules) && rewriter.irls == [] && rewriter.virtuals == 0
    modifies rewriter
    ensures BlocksOk(c, rules, |rules|, blocks, rewriter.virtuals) && rewriter.irls == Flat(blocks)
  {
    hide BlockOk, BlocksOk, Used, RuleIrls, SequenceIrls, FactorsOf, SuffixOf;
    blocks := [];
    NoBlocks(c, rules);
    for r := 0 to |rules|
      invariant BlocksOk(c, rules, r, blocks, rewriter.virtuals) && rewriter.irls == Flat(blocks)
    {
      assert Nullables.RuleOk(n, rules[r]);
      var used := Used(c, rules[r]);
      if used {
        ghost var first := rewriter.virtuals;
        ghost var b: Block;
        if rules[r].isSequence {
          rewriter.RewriteSequence(AsSequence(rules[r]));
          b := Block(r, rules[r], first, rewriter.virtuals, SequenceIrls(AsSequence(rules[r]), first));
          SequenceBlockOk(c, b);
        } else {
          ghost var fs, suffix := rewriter.RewriteRule(WithKinds(c, rules[r]));
          b := Block(r, rules[r], first, rewriter.virtuals, RuleIrls(WithKinds(c, rules[r]), suffix, fs, first));
          PieceBlockOk(c, b, fs, suffix);
        }
        BlockAdded(c, rules, r, blocks, first, b);
        blocks := blocks + [b];
      } else {
        BlockSkipped(c, rules, r, blocks, rewriter.virtuals);
      }
    }
  }

  lemma SequenceBlockOk(c: Census, b: Block)
    requires WellFormed(b.rule) && Used(c, b.rule) && b.rule.isSequence
    requires b.irls == SequenceIrls(AsSequence(b.rule), b.first) && b.next == b.first + 1
    ensures BlockOk(c, b)
  {
  }

  lemma PieceBlockOk(c: Census, b: Block, fs: seq<nat>, suffix: nat)
    requires WellFormed(b.rule) && Used(c, b.rule) && !b.rule.isSequence && PieceBlock(c, b, fs, suffix)
    ensures BlockOk(c, b)
  {
  }

  // ---------------------------------------------------------------- whose symbol is it

  /** A block defines its rule's left side and its own virtual symbols, and uses no other virtual symbols. */
  lemma BlockIds(c: Census, b: Block, irl: Irl)
    requires BlockOk(c, b) && irl in b.irls
    ensures irl.lhs == Proper(b.rule.lhs) || (irl.lhs.Virtual? && b.first <= irl.lhs.id < b.next)
    ensures forall a | a in irl.rhs && a.Virtual? :: b.first <= a.id < b.next
    ensures !b.rule.isSequence ==> IdsWithin(irl, Proper(b.rule.lhs), b.first, b.next)
  {
    hide Used, FactorsOf, SuffixOf, Pieces;
    if b.rule.isSequence {
      var q := AsSequence(b.rule);
      RulesOfList(q, b.first, irl);
    } else {
      var rule := WithKinds(c, b.rule);
      var fs, suffix :| PieceBlock(c, b, fs, suffix);
      if fs == [] {
        LastWithin(rule, Proper(rule.lhs), 0, {}, b.first, 3, b.next);
      } else {
        PiecesWithin(rule, suffix, Proper(rule.lhs), 0, fs, b.first);
      }
    }
  }

  /** The internal grammar: its rules, and empty ones for the null versions of symbols. */
  ghost function Internal(irls: seq<Irl>): iset<Production> {
    iset p: Production | (p.0.Nulled? && p.1 == []) || exists irl :: irl in irls && p == (irl.lhs, irl.rhs)
  }

  /** The rewritten rules and the rule for the start symbol. */
  function StartIrl(start: nat, v: nat): Irl {
    Irl(Virtual(v), [Proper(start)], 3, 0, 1)
  }

  ghost function Whole(blocks: seq<Block>, start: nat, v: nat): seq<Irl> {
    Flat(blocks) + [StartIrl(start, v)]
  }

  /** All there is to know about a rewritten grammar. */
  ghost predicate Rewritten(n: nat, rules: seq<Xrl>, terminals: set<nat>, start: nat, c: Census, blocks: seq<Block>,
      v: nat)
  {
    Ready(n, rules, terminals, start, c) && BlocksOk(c, rules, |rules|, blocks, v)
  }

  ghost predicate InBlock(blocks: seq<Block>, k: nat, irl: Irl) {
    k < |blocks| && irl in blocks[k].irls
  }

  /** An internal rule comes from one block, which is the owner of its left side. */
  lemma Owner(c: Census, rules: seq<Xrl>, blocks: seq<Block>, start: nat, v: nat, irl: Irl)
    requires BlocksOk(c, rules, |rules|, blocks, v) && irl in Whole(blocks, start, v)
    ensures !irl.lhs.Nulled?
    ensures irl.lhs == Virtual(v) ==> irl == StartIrl(start, v)
    ensures irl.lhs != Virtual(v) ==> exists k: nat :: InBlock(blocks, k, irl)
    ensures forall k: nat | k < |blocks| && irl.lhs.Virtual? && blocks[k].first <= irl.lhs.id < blocks[k].next ::
        InBlock(blocks, k, irl)
  {
    hide BlockOk;
    FlatHas(blocks, irl);
    if irl in Flat(blocks) {
      var m: nat :| m < |blocks| && irl in blocks[m].irls;
      BlockIds(c, blocks[m], irl);
      assert InBlock(blocks, m, irl);
      forall k: nat | k < |blocks| && irl.lhs.Virtual? && blocks[k].first <= irl.lhs.id < blocks[k].next
          ensures k == m {
      }
    }
  }

  lemma BlockRuleIn(blocks: seq<Block>, start: nat, v: nat, k: nat, irl: Irl)
    requires InBlock(blocks, k, irl)
    ensures (irl.lhs, irl.rhs) in Internal(Whole(blocks, start, v))
  {
    FlatHas(blocks, irl);
    assert irl in Whole(blocks, start, v);
  }

  /** A virtual symbol of a block is expanded by a rule of that block. */
  lemma ExpandVirtual(c: Census, rules: seq<Xrl>, blocks: seq<Block>, start: nat, v: nat, ts: set<Token>, k: nat,
      a: Nsy, d: nat, i: nat, j: nat)
    returns (irl: Irl)
    requires BlocksOk(c, rules, |rules|, blocks, v) && k < |blocks|
    requires a.Virtual? && blocks[k].first <= a.id < blocks[k].next
    requires Derives(Internal(Whole(blocks, start, v)), ts, d, a, i, j)
    ensures d > 0 && InBlock(blocks, k, irl) && irl.lhs == a
    ensures DerivesAll(Internal(Whole(blocks, start, v)), ts, d - 1, irl.rhs, i, j)
  {
    hide BlockOk, Whole;
    var ps := Internal(Whole(blocks, start, v));
    var rhs :| (a, rhs) in ps && DerivesAll(ps, ts, d - 1, rhs, i, j);
    irl :| irl in Whole(blocks, start, v) && (a, rhs) == (irl.lhs, irl.rhs);
    Owner(c, rules, blocks, start, v, irl);
  }

  // ---------------------------------------------------------------- from an internal derivation to what it spells

  /** Follow the virtual symbols of a derivation by pieces: they make a chain, and what the chain spells is derived. */
  lemma {:induction false} DerivationIsChain(c: Census, rules: seq<Xrl>, blocks: seq<Block>, start: nat, v: nat,
      ts: set<Token>, k: nat, irl: Irl, d: nat, i: nat, j: nat)
    returns (chain: seq<Irl>, out: seq<Nsy>)
    requires BlocksOk(c, rules, |rules|, blocks, v) && InBlock(blocks, k, irl) && !blocks[k].rule.isSequence
    requires DerivesAll(Internal(Whole(blocks, start, v)), ts, d, irl.rhs, i, j)
    ensures Chain(blocks[k].irls, irl.lhs, chain, out)
    ensures DerivesAll(Internal(Whole(blocks, start, v)), ts, d, out, i, j)
    decreases d
  {
    hide BlocksOk, BlockOk, Internal, Whole, DerivesAll, Derives, IdsWithin;
    var ps := Internal(Whole(blocks, start, v));
    BlockAt(c, rules, blocks, v, k);
    BlockIds(c, blocks[k], irl);
    if EndsVirtual(irl) {
      var n := |irl.rhs| - 1;
      var front, last := irl.rhs[..n], irl.rhs[n];
      assert irl.rhs == front + [last] && last in irl.rhs;
      var m := SpellsSplit(ps, ts, d, front, [last], i, j);
      OneDerives(ps, ts, d, last, m, j);
      var next := ExpandVirtual(c, rules, blocks, start, v, ts, k, last, d, m, j);
      var rest, more := DerivationIsChain(c, rules, blocks, start, v, ts, k, next, d - 1, m, j);
      chain, out := [irl] + rest, front + more;
      AllDeeper(ps, ts, d - 1, d, more, m, j);
      DerivesJoin(ps, ts, d, front, more, i, m, j);
      assert chain[1..] == rest && out[n..] == more && out[..n] == front;
    } else {
      chain, out := [irl], irl.rhs;
    }
  }

  lemma BlockAt(c: Census, rules: seq<Xrl>, blocks: seq<Block>, v: nat, k: nat)
    requires BlocksOk(c, rules, |rules|, blocks, v) && k < |blocks|
    ensures BlockOk(c, blocks[k]) && blocks[k].rule in rules && blocks[k].first <= blocks[k].next <= v
    ensures blocks[k].id < |rules| && rules[blocks[k].id] == blocks[k].rule
  {
  }

  /** The same for sequences, whose virtual symbol comes first. */
  lemma {:induction false} DerivationUnrolls(c: Census, rules: seq<Xrl>, blocks: seq<Block>, start: nat, v: nat,
      ts: set<Token>, k: nat, irl: Irl, d: nat, i: nat, j: nat)
    returns (depth: nat, out: seq<Nsy>)
    requires BlocksOk(c, rules, |rules|, blocks, v) && InBlock(blocks, k, irl) && blocks[k].rule.isSequence
    requires DerivesAll(Internal(Whole(blocks, start, v)), ts, d, irl.rhs, i, j)
    ensures Unrolls(blocks[k].irls, irl.lhs, depth, out)
    ensures DerivesAll(Internal(Whole(blocks, start, v)), ts, d, out, i, j)
    decreases d
  {
    hide BlocksOk, BlockOk, Internal, Whole, Unrolls;
    var ps := Internal(Whole(blocks, start, v));
    BlockAt(c, rules, blocks, v, k);
    BlockIds(c, blocks[k], irl);
    if irl.rhs != [] && irl.rhs[0].Virtual? {
      var first, back := irl.rhs[0], irl.rhs[1..];
      assert irl.rhs == [first] + back;
      var m := SpellsSplit(ps, ts, d, [first], back, i, j);
      OneDerives(ps, ts, d, first, i, m);
      var next := ExpandVirtual(c, rules, blocks, start, v, ts, k, first, d, i, m);
      var less, more := DerivationUnrolls(c, rules, blocks, start, v, ts, k, next, d - 1, i, m);
      depth, out := less + 1, more + back;
      UnrollsStep(blocks[k].irls, irl, less, more, back);
      AllDeeper(ps, ts, d - 1, d, more, i, m);
      DerivesJoin(ps, ts, d, more, back, i, m, j);
    } else {
      depth, out := 1, irl.rhs;
      UnrollsPlain(blocks[k].irls, irl);
    }
  }

  lemma UnrollsPlain(irls: seq<Irl>, irl: Irl)
    requires irl in irls && (irl.rhs == [] || !irl.rhs[0].Virtual?)
    ensures Unrolls(irls, irl.lhs, 1, irl.rhs)
  {
    assert UnrollsBy(irls, irl, 1, irl.rhs);
  }

  // ---------------------------------------------------------------- nothing is added

  /** Symbols without their null marks. */
  function Unmarked(out: seq<Nsy>): (r: seq<Nsy>)
    requires forall a | a in out :: !a.Virtual?
    ensures |r| == |out| && forall k | 0 <= k < |out| :: r[k] == Proper(out[k].xsy)
  {
    seq(|out|, k requires 0 <= k < |out| => Proper(out[k].xsy))
  }

  ghost predicate Marked(c: Census, out: seq<Nsy>) {
    forall a | a in out :: !a.Virtual? && (a.Nulled? ==> a.xsy in c.nullable)
  }

  lemma NulledSpan(c: Census, rules: seq<Xrl>, blocks: seq<Block>, start: nat, v: nat, ts: set<Token>, d: nat, x: nat,
      i: nat, j: nat)
    requires BlocksOk(c, rules, |rules|, blocks, v)
    requires Derives(Internal(Whole(blocks, start, v)), ts, d, Nulled(x), i, j)
    ensures i == j
  {
    hide BlocksOk, Whole;
    var ps := Internal(Whole(blocks, start, v));
    var rhs :| (Nulled(x), rhs) in ps && DerivesAll(ps, ts, d - 1, rhs, i, j);
    if irl :| irl in Whole(blocks, start, v) && (Nulled(x), rhs) == (irl.lhs, irl.rhs) {
      Owner(c, rules, blocks, start, v, irl);
    }
  }

  /** What the internal grammar derives, the external one derives. */
  lemma {:induction false} InternalIsExternal(n: nat, rules: seq<Xrl>, terminals: set<nat>, start: nat, c: Census,
      blocks: seq<Block>, v: nat, ts: set<Token>, d: nat, a: nat, i: nat, j: nat)
    requires Rewritten(n, rules, terminals, start, c, blocks, v)
    requires Derives(Internal(Whole(blocks, start, v)), ts, d, Proper(a), i, j)
    ensures Spells(Kept(rules, c.productive), ts, Proper(a), i, j)
    decreases d, 0
  {
    hide Ready, BlocksOk, BlockOk, Whole, Kept, KeptBody;
    var ps, qs := Internal(Whole(blocks, start, v)), Kept(rules, c.productive);
    if Reads(ts, Proper(a), i, j) {
      SpellsToken(qs, ts, Proper(a), i, j);
    } else {
      var rhs :| (Proper(a), rhs) in ps && DerivesAll(ps, ts, d - 1, rhs, i, j);
      var irl :| irl in Whole(blocks, start, v) && (Proper(a), rhs) == (irl.lhs, irl.rhs);
      Owner(c, rules, blocks, start, v, irl);
      var k: nat :| InBlock(blocks, k, irl);
      BlockAt(c, rules, blocks, v, k);
      BlockIds(c, blocks[k], irl);
      var out;
      if blocks[k].rule.isSequence {
        var depth;
        depth, out := DerivationUnrolls(c, rules, blocks, start, v, ts, k, irl, d - 1, i, j);
        UnrolledBody(c, blocks[k], depth, out);
      } else {
        var chain;
        chain, out := DerivationIsChain(c, rules, blocks, start, v, ts, k, irl, d - 1, i, j);
        ChainBody(n, rules, terminals, start, c, blocks[k], chain, out);
      }
      OutIsExternal(n, rules, terminals, start, c, blocks, v, ts, d - 1, out, i, j);
      BodyKept(rules, c.productive, blocks[k].rule, Unmarked(out));
      SpellsBy(qs, ts, Proper(a), Unmarked(out), i, j);
    }
  }

  lemma BodyKept(rules: seq<Xrl>, productive: set<nat>, rule: Xrl, body: seq<Nsy>)
    requires rule in rules && KeptBody(rule, productive, body)
    ensures (Proper(rule.lhs), body) in Kept(rules, productive)
  {
  }

  lemma {:induction false} OutIsExternal(n: nat, rules: seq<Xrl>, terminals: set<nat>, start: nat, c: Census,
      blocks: seq<Block>, v: nat, ts: set<Token>, d: nat, out: seq<Nsy>, i: nat, j: nat)
    requires Rewritten(n, rules, terminals, start, c, blocks, v) && Marked(c, out)
    requires DerivesAll(Internal(Whole(blocks, start, v)), ts, d, out, i, j)
    ensures SpellsAll(Kept(rules, c.productive), ts, Unmarked(out), i, j)
    decreases d, 1 + |out|
  {
    hide Ready, BlocksOk, Internal, Whole, Kept;
    var ps, qs := Internal(Whole(blocks, start, v)), Kept(rules, c.productive);
    if out == [] {
      SpellsNothing(qs, ts, i);
      assert Unmarked(out) == [];
    } else {
      var m: nat :| Derives(ps, ts, d, out[0], i, m) && DerivesAll(ps, ts, d, out[1..], m, j);
      var x := out[0].xsy;
      if out[0].Nulled? {
        NulledSpan(c, rules, blocks, start, v, ts, d, x, i, m);
        NullableVanishes(n, rules, terminals, start, c, ts, x);
        assert Spells(qs, ts, Proper(x), i, m);
      } else {
        InternalIsExternal(n, rules, terminals, start, c, blocks, v, ts, d, x, i, m);
      }
      assert forall a | a in out[1..] :: a in out;
      OutIsExternal(n, rules, terminals, start, c, blocks, v, ts, d, out[1..], m, j);
      SpellsOne(qs, ts, Proper(x), i, m);
      SpellsJoin(qs, ts, [Proper(x)], Unmarked(out[1..]), i, m, j);
      assert Unmarked(out) == [Proper(x)] + Unmarked(out[1..]);
    }
  }

  /** An unrolled sequence is a body of its rule. */
  lemma UnrolledBody(c: Census, b: Block, depth: nat, out: seq<Nsy>)
    requires BlockOk(c, b) && b.rule.isSequence && Unrolls(b.irls, Proper(b.rule.lhs), depth, out)
    ensures Marked(c, out) && Unmarked(out) == out && KeptBody(b.rule, c.productive, out)
  {
    var q := AsSequence(b.rule);
    SequenceIsItems(q, b.first, depth - 1, out);
    hide Unrolls, SequenceIrls;
    var count: nat;
    if IsItems(q, depth - 1, out) {
      count :| 0 < count <= depth - 1 && out == Items(q, count);
    } else {
      var front :| IsItems(q, depth - 1, front) && out == front + [Proper(q.separator)];
      count :| 0 < count <= depth - 1 && front == Items(q, count);
    }
    assert ListBody(q, count, out);
    ListKept(c, b, count, out);
  }

  lemma ListKept(c: Census, b: Block, count: nat, out: seq<Nsy>)
    requires BlockOk(c, b) && b.rule.isSequence && ListBody(AsSequence(b.rule), count, out)
    ensures Marked(c, out) && Unmarked(out) == out && KeptBody(b.rule, c.productive, out)
  {
    ItemsMention(AsSequence(b.rule), count);
    forall k | 0 <= k < |out| ensures out[k].Proper? {
      assert out[k] in out;
    }
    assert Unmarked(out) == out;
  }

  /** What a chain of pieces spells is the rule's right side with some nullable symbols marked null. */
  lemma ChainBody(n: nat, rules: seq<Xrl>, terminals: set<nat>, start: nat, c: Census, b: Block, chain: seq<Irl>,
      out: seq<Nsy>)
    requires Ready(n, rules, terminals, start, c)
    requires BlockOk(c, b) && !b.rule.isSequence && Chain(b.irls, Proper(b.rule.lhs), chain, out)
    ensures Marked(c, out) && Unmarked(out) == ProperAll(b.rule.rhs) && KeptBody(b.rule, c.productive, Unmarked(out))
  {
    hide Ready, Chain, Pieces, Slice, KeptBody;
    var rule := WithKinds(c, b.rule);
    var fs, suffix :| PieceBlock(c, b, fs, suffix);
    var nulls: set<nat> := {};
    if fs == [] {
      ChainHead(b.irls, Proper(rule.lhs), chain, out);
      PieceIds(rule, Proper(rule.lhs), 0, 0, {}, b.first, 3);
    } else {
      nulls := ChainSpellsPattern(rule, suffix, Proper(rule.lhs), 0, fs, b.first, chain, out);
    }
    assert out == Slice(rule, 0, |rule.rhs|, nulls);
    assert nulls <= ToSet(fs);
    SliceBody(n, rules, terminals, start, c, b.rule, fs, nulls);
    assert KeptBody(b.rule, c.productive, Unmarked(out)) by { PlainBody(b.rule, c.productive); }
  }

  lemma PlainBody(rule: Xrl, productive: set<nat>)
    requires !rule.isSequence
    ensures KeptBody(rule, productive, ProperAll(rule.rhs))
  {
  }

  lemma SliceBody(n: nat, rules: seq<Xrl>, terminals: set<nat>, start: nat, c: Census, rule: Xrl, fs: seq<nat>,
      nulls: set<nat>)
    requires Ready(n, rules, terminals, start, c) && Used(c, rule) && FactorsOf(WithKinds(c, rule), fs, 0)
        && nulls <= ToSet(fs)
    ensures Marked(c, Slice(WithKinds(c, rule), 0, |rule.rhs|, nulls))
    ensures Unmarked(Slice(WithKinds(c, rule), 0, |rule.rhs|, nulls)) == ProperAll(rule.rhs)
  {
    hide Ready;
    var out := Slice(WithKinds(c, rule), 0, |rule.rhs|, nulls);
    forall a | a in out ensures !a.Virtual? && (a.Nulled? ==> a.xsy in c.nullable) {
      var k :| 0 <= k < |out| && out[k] == a;
      var x := rule.rhs[k];
      assert x in rule.rhs;
      if x in c.nulling {
        NullingIsNullable(n, rules, terminals, start, c, x);
      } else if k in nulls {
        assert k in fs;
      }
    }
  }

  // ---------------------------------------------------------------- which version of a symbol is used

  /** A symbol is used in its proper version only where it is not nulling, and in its null version only where it can be
      empty. */
  ghost predicate Fitting(rule: Rule, a: Nsy)
    requires Chaf.RuleOk(rule)
  {
    match a
    case Proper(x) => exists pos :: 0 <= pos < |rule.rhs| && rule.rhs[pos] == x && rule.kinds[pos] != Nulling
    case Nulled(x) => exists pos :: 0 <= pos < |rule.rhs| && rule.rhs[pos] == x && rule.kinds[pos] != NonNullable
    case Virtual(_) => true
  }

  lemma SliceFits(rule: Rule, start: nat, end: nat, nulls: set<nat>)
    requires Chaf.RuleOk(rule) && start <= end <= |rule.rhs|
    requires forall pos | pos in nulls && pos < |rule.rhs| :: rule.kinds[pos] != NonNullable
    ensures forall a | a in Slice(rule, start, end, nulls) :: Fitting(rule, a)
  {
    forall a | a in Slice(rule, start, end, nulls) ensures Fitting(rule, a) {
      var k :| 0 <= k < end - start && Slice(rule, start, end, nulls)[k] == a;
      assert a == At(rule, start + k, start + k in nulls);
    }
  }

  lemma StepFits(rule: Rule, suffix: nat, lhs: Nsy, start: nat, fs: seq<nat>, v: nat, irl: Irl)
    requires Chaf.RuleOk(rule) && SuffixOf(rule, suffix) && |fs| >= 3 && FactorsOf(rule, fs, start)
    requires start <= NextStart(suffix, fs) <= |rule.rhs|
    requires irl in StepPieces(rule, suffix, lhs, start, fs[0], fs[1], v)
    ensures forall a | a in irl.rhs :: Fitting(rule, a)
  {
    hide Fitting, Slice;
    assert fs[0] in fs && fs[1] in fs;
    var m, linked := StepPieceForm(rule, suffix, lhs, start, fs, v, irl);
    hide StepPieces, FactorsOf;
    if linked {
      SliceFits(rule, start, NextStart(suffix, fs), m);
      VirtualFits(rule, v);
    } else {
      SliceFits(rule, start, |rule.rhs|, m + From(fs[1], |rule.rhs|));
    }
  }

  lemma FinalFits(rule: Rule, suffix: nat, lhs: Nsy, start: nat, fs: seq<nat>, irl: Irl)
    requires Chaf.RuleOk(rule) && start <= |rule.rhs| && 1 <= |fs| <= 2 && FactorsOf(rule, fs, start)
    requires irl in FinalPieces(rule, suffix, lhs, start, fs)
    ensures forall a | a in irl.rhs :: Fitting(rule, a)
  {
    hide Fitting, Slice;
    var m := FinalPieceForm(rule, suffix, lhs, start, fs, irl);
    assert forall f | f in m :: f in fs;
    hide FinalPieces;
    SliceFits(rule, start, |rule.rhs|, m);
  }

  lemma {:induction false} PiecesFit(rule: Rule, suffix: nat, lhs: Nsy, start: nat, fs: seq<nat>, v: nat)
    requires Chaf.RuleOk(rule) && SuffixOf(rule, suffix)
    requires start <= |rule.rhs| && fs != [] && FactorsOf(rule, fs, start)
    ensures forall irl, a | irl in Pieces(rule, suffix, lhs, start, fs, v) && a in irl.rhs :: Fitting(rule, a)
    decreases |fs|
  {
    hide Fitting, StepPieces, FinalPieces, FactorsOf, SuffixOf;
    if |fs| >= 3 {
      NextFactorsOk(rule, suffix, start, fs);
      FirstFactors(rule, start, fs);
      PiecesFit(rule, suffix, Virtual(v), NextStart(suffix, fs), NextFactors(suffix, fs), v + 1);
      forall irl | irl in StepPieces(rule, suffix, lhs, start, fs[0], fs[1], v)
        ensures forall a | a in irl.rhs :: Fitting(rule, a)
      {
        StepFits(rule, suffix, lhs, start, fs, v, irl);
      }
    } else {
      forall irl | irl in FinalPieces(rule, suffix, lhs, start, fs)
        ensures forall a | a in irl.rhs :: Fitting(rule, a)
      {
        FinalFits(rule, suffix, lhs, start, fs, irl);
      }
    }
  }

  lemma VirtualFits(rule: Rule, v: nat)
    requires Chaf.RuleOk(rule)
    ensures Fitting(rule, Virtual(v))
  {
  }

  /** In the internal grammar no nulling symbol stands in its proper version, and no symbol that cannot be empty in its
      null version. */
  lemma VersionsFit(n: nat, rules: seq<Xrl>, terminals: set<nat>, start: nat, c: Census, blocks: seq<Block>, v: nat,
      irl: Irl, a: Nsy)
    requires Rewritten(n, rules, terminals, start, c, blocks, v) && start !in c.nulling
    requires irl in Whole(blocks, start, v) && a in irl.rhs
    ensures a.Proper? ==> a.xsy !in c.nulling
    ensures a.Nulled? ==> a.xsy in c.nullable
  {
    hide Ready, BlockOk;
    FlatHas(blocks, irl);
    if irl in Flat(blocks) {
      var k :| 0 <= k < |blocks| && irl in blocks[k].irls;
      BlockAt(c, rules, blocks, v, k);
      BlockFits(n, rules, terminals, start, c, blocks[k], irl, a);
    } else {
      assert irl == StartIrl(start, v) && a == Proper(start);
    }
  }

  lemma BlockFits(n: nat, rules: seq<Xrl>, terminals: set<nat>, start: nat, c: Census, b: Block, irl: Irl, a: Nsy)
    requires Ready(n, rules, terminals, start, c) && BlockOk(c, b) && b.rule in rules
    requires irl in b.irls && a in irl.rhs
    ensures a.Proper? ==> a.xsy !in c.nulling
    ensures a.Nulled? ==> a.xsy in c.nullable
  {
    hide CensusOk;
    if b.rule.isSequence {
      SequenceFits(n, rules, terminals, start, c, b, irl, a);
    } else {
      var rule := WithKinds(c, b.rule);
      var fs, suffix :| PieceBlock(c, b, fs, suffix);
      if fs == [] {
        SliceFits(rule, 0, |rule.rhs|, {});
      } else {
        PiecesFit(rule, suffix, Proper(rule.lhs), 0, fs, b.first);
      }
      assert Fitting(rule, a);
      forall x | x in b.rule.rhs && x in c.nulling ensures x in c.nullable {
        NullingIsNullable(n, rules, terminals, start, c, x);
      }
    }
  }

  lemma SequenceFits(n: nat, rules: seq<Xrl>, terminals: set<nat>, start: nat, c: Census, b: Block, irl: Irl, a: Nsy)
    requires Ready(n, rules, terminals, start, c) && BlockOk(c, b) && b.rule in rules && b.rule.isSequence
    requires irl in b.irls && a in irl.rhs
    ensures !a.Nulled? && (a.Proper? ==> a.xsy !in c.nulling)
  {
    hide CensusOk;
    var r :| 0 <= r < |rules| && rules[r] == b.rule;
    if a.Proper? {
      var x := a.xsy;
      assert b.rule.rhs[0] in b.rule.rhs;
      assert x == b.rule.rhs[0] || x == b.rule.separator;
      assert Counts(rules[r], x) && x in c.productive;
      if x in c.nulling {
        NullingIsNullable(n, rules, terminals, start, c, x);
        assert false;
      }
    }
  }

  // ---------------------------------------------------------------- nothing is lost

  /** A chain derives what it spells. */
  lemma {:induction false} ChainSpans(blocks: seq<Block>, start: nat, v: nat, ts: set<Token>, k: nat, lhs: Nsy,
      chain: seq<Irl>, out: seq<Nsy>, i: nat, j: nat)
    requires k < |blocks| && Chain(blocks[k].irls, lhs, chain, out)
    requires SpellsAll(Internal(Whole(blocks, start, v)), ts, out, i, j)
    ensures Spells(Internal(Whole(blocks, start, v)), ts, lhs, i, j)
    decreases |chain|
  {
    hide Internal, Whole, SpellsAll, Spells;
    var ps, irl := Internal(Whole(blocks, start, v)), chain[0];
    if EndsVirtual(irl) {
      var n := |irl.rhs| - 1;
      var m := SpellsCut(ps, ts, out[..n], out[n..], out, i, j);
      ChainSpans(blocks, start, v, ts, k, irl.rhs[n], chain[1..], out[n..], m, j);
      SpellsOne(ps, ts, irl.rhs[n], m, j);
      SpellsJoin(ps, ts, out[..n], [irl.rhs[n]], i, m, j);
      assert irl.rhs == out[..n] + [irl.rhs[n]];
    }
    BlockRuleIn(blocks, start, v, k, irl);
    SpellsBy(ps, ts, lhs, irl.rhs, i, j);
  }

  lemma SpellsCut(ps: iset<Production>, ts: set<Token>, x: seq<Nsy>, y: seq<Nsy>, xy: seq<Nsy>, i: nat, j: nat)
    returns (m: nat)
    requires SpellsAll(ps, ts, xy, i, j) && xy == x + y
    ensures SpellsAll(ps, ts, x, i, m) && SpellsAll(ps, ts, y, m, j)
  {
    var d: nat :| DerivesAll(ps, ts, d, xy, i, j);
    m := SpellsSplit(ps, ts, d, x, y, i, j);
  }

  /** A sequence derives what it unrolls to. */
  lemma {:induction false} UnrollSpans(blocks: seq<Block>, start: nat, v: nat, ts: set<Token>, k: nat, lhs: Nsy,
      depth: nat, out: seq<Nsy>, i: nat, j: nat)
    requires k < |blocks| && Unrolls(blocks[k].irls, lhs, depth, out)
    requires SpellsAll(Internal(Whole(blocks, start, v)), ts, out, i, j)
    ensures Spells(Internal(Whole(blocks, start, v)), ts, lhs, i, j)
    decreases depth
  {
    hide Internal, Whole, SpellsAll, Spells;
    var ps, irls := Internal(Whole(blocks, start, v)), blocks[k].irls;
    var irl :| irl in irls && irl.lhs == lhs && UnrollsBy(irls, irl, depth, out);
    if irl.rhs != [] && irl.rhs[0].Virtual? {
      var front := UnrollsSplit(irls, irl, depth, out);
      var m := SpellsCut(ps, ts, front, irl.rhs[1..], out, i, j);
      UnrollSpans(blocks, start, v, ts, k, irl.rhs[0], depth - 1, front, i, m);
      SpellsOne(ps, ts, irl.rhs[0], i, m);
      SpellsJoin(ps, ts, [irl.rhs[0]], irl.rhs[1..], i, m, j);
      assert irl.rhs == [irl.rhs[0]] + irl.rhs[1..];
    }
    BlockRuleIn(blocks, start, v, k, irl);
    SpellsBy(ps, ts, lhs, irl.rhs, i, j);
  }

  /** Every position of this null pattern is a proper nullable one, and some symbol from `pos` on stands up if input is
      spanned. */
  ghost predicate PatternOk(rule: Rule, pos: nat, nulls: set<nat>, spans: bool)
    requires Chaf.RuleOk(rule)
  {
    && (forall p | p in nulls :: pos <= p < |rule.rhs| && rule.kinds[p] == ProperNullable)
    && (spans ==> exists p: nat :: StandsAt(rule, pos, nulls, p))
  }

  ghost predicate StandsAt(rule: Rule, pos: nat, nulls: set<nat>, p: nat)
    requires Chaf.RuleOk(rule)
  {
    pos <= p < |rule.rhs| && (rule.kinds[p] == NonNullable || (rule.kinds[p] == ProperNullable && p !in nulls))
  }

  lemma NulledSpells(irls: seq<Irl>, ts: set<Token>, x: nat, i: nat)
    ensures Spells(Internal(irls), ts, Nulled(x), i, i)
  {
    SpellsNothing(Internal(irls), ts, i);
    SpellsBy(Internal(irls), ts, Nulled(x), [], i, i);
  }

  /** What the external grammar derives from accessible symbols, the internal one derives, unless it is empty. */
  lemma {:induction false} ExternalIsInternal(n: nat, rules: seq<Xrl>, terminals: set<nat>, start: nat, c: Census,
      blocks: seq<Block>, v: nat, ts: set<Token>, d: nat, a: nat, i: nat, j: nat)
    requires Rewritten(n, rules, terminals, start, c, blocks, v) && TokensOk(terminals, ts)
    requires Derives(Kept(rules, c.productive), ts, d, Proper(a), i, j) && i < j && a in c.accessible
    ensures Spells(Internal(Whole(blocks, start, v)), ts, Proper(a), i, j)
    decreases d, 0
  {
    hide Ready, BlocksOk, BlockOk, Internal, Whole, KeptBody, TokensOk, Spells, SpellsAll, Mentions, Used;
    var ps, qs := Internal(Whole(blocks, start, v)), Kept(rules, c.productive);
    if Reads(ts, Proper(a), i, j) {
      SpellsToken(ps, ts, Proper(a), i, j);
    } else {
      var body: seq<Nsy> :| (Proper(a), body) in qs && DerivesAll(qs, ts, d - 1, body, i, j);
      var r :| 0 <= r < |rules| && Proper(a) == Proper(rules[r].lhs) && KeptBody(rules[r], c.productive, body);
      SpanningIsUsed(n, rules, terminals, start, c, ts, r, body, d - 1, i, j);
      var k := BlockFor(c, rules, blocks, v, r);
      BlockAt(c, rules, blocks, v, k);
      BodyMentions(rules[r], c.productive, body);
      forall b | b in body ensures b.Proper? && b.xsy in c.accessible {
        AccessibleStep(n, rules, terminals, start, c, r, b.xsy);
      }
      if rules[r].isSequence {
        forall b | b in body ensures b.xsy !in c.nullable {
          NotCounted(rules, terminals, start, c, n, r, b.xsy);
        }
        ListIsInternal(n, rules, terminals, start, c, blocks, v, ts, d - 1, body, i, j);
        var depth := ListUnrolls(c, blocks[k], body, qs, ts, d - 1, i, j);
        UnrollSpans(blocks, start, v, ts, k, Proper(a), depth, body, i, j);
      } else {
        var rule := WithKinds(c, rules[r]);
        assert body == ProperAll(rule.rhs[0..]);
        forall b | b in rule.rhs ensures b in c.accessible {
          var p :| 0 <= p < |rule.rhs| && rule.rhs[p] == b;
          assert body[p] in body;
        }
        var nulls := RuleIsInternal(n, rules, terminals, start, c, blocks, v, ts, d - 1, rule, 0, i, j);
        PatternSpans(c, blocks, start, v, ts, k, nulls, i, j);
      }
    }
  }

  lemma BlockFor(c: Census, rules: seq<Xrl>, blocks: seq<Block>, v: nat, r: nat) returns (k: nat)
    requires BlocksOk(c, rules, |rules|, blocks, v) && r < |rules| && Used(c, rules[r])
    ensures k < |blocks| && blocks[k].rule == rules[r]
  {
    k :| 0 <= k < |blocks| && blocks[k].rule == rules[r];
  }

  lemma NotCounted(rules: seq<Xrl>, terminals: set<nat>, start: nat, c: Census, n: nat, r: nat, a: nat)
    requires Ready(n, rules, terminals, start, c) && r < |rules| && rules[r].isSequence && Mentions(rules[r], a)
    ensures a !in c.nullable
  {
    assert Counts(rules[r], a);
  }

  /** Symbols that cannot be empty, one by one. */
  lemma {:induction false} ListIsInternal(n: nat, rules: seq<Xrl>, terminals: set<nat>, start: nat, c: Census,
      blocks: seq<Block>, v: nat, ts: set<Token>, d: nat, body: seq<Nsy>, i: nat, j: nat)
    requires Rewritten(n, rules, terminals, start, c, blocks, v) && TokensOk(terminals, ts)
    requires forall b | b in body :: b.Proper? && b.xsy in c.accessible && b.xsy !in c.nullable
    requires DerivesAll(Kept(rules, c.productive), ts, d, body, i, j)
    ensures SpellsAll(Internal(Whole(blocks, start, v)), ts, body, i, j)
    decreases d, 1 + |body|
  {
    hide Ready, BlocksOk, Internal, Whole, Kept, TokensOk, Spells, SpellsAll;
    var ps, qs := Internal(Whole(blocks, start, v)), Kept(rules, c.productive);
    if body == [] {
      SpellsNothing(ps, ts, i);
    } else {
      var m: nat :| Derives(qs, ts, d, body[0], i, m) && DerivesAll(qs, ts, d, body[1..], m, j);
      Order(qs, ts, d, body[0], i, m);
      if i == m {
        VanishingIsNullable(n, rules, terminals, start, c, ts, d, body[0], i);
      }
      ExternalIsInternal(n, rules, terminals, start, c, blocks, v, ts, d, body[0].xsy, i, m);
      assert forall b | b in body[1..] :: b in body;
      ListIsInternal(n, rules, terminals, start, c, blocks, v, ts, d, body[1..], m, j);
      SpellsOne(ps, ts, body[0], i, m);
      SpellsJoin(ps, ts, [body[0]], body[1..], i, m, j);
      assert body == [body[0]] + body[1..];
    }
  }

  /** A list with something in it is unrolled by the rewritten sequence. */
  lemma ListUnrolls(c: Census, b: Block, body: seq<Nsy>, qs: iset<Production>, ts: set<Token>, d: nat, i: nat, j: nat)
    returns (depth: nat)
    requires BlockOk(c, b) && b.rule.isSequence && KeptBody(b.rule, c.productive, body)
    requires DerivesAll(qs, ts, d, body, i, j) && i < j
    ensures Unrolls(b.irls, Proper(b.rule.lhs), depth, body)
  {
    var q := AsSequence(b.rule);
    assert body != [];
    var count: nat :| ListBody(q, count, body);
    hide Unrolls, SequenceIrls;
    depth := count + 1;
    if body == Items(q, count) {
      assert IsItems(q, count, body);
    } else {
      assert IsItems(q, count, Items(q, count));
      assert IsTrailingItems(q, count, body);
    }
    SequenceIsItems(q, b.first, count, body);
  }

  /** The symbols of a BNF rule from `pos` on: the empty ones make a null pattern. */
  lemma {:induction false} RuleIsInternal(n: nat, rules: seq<Xrl>, terminals: set<nat>, start: nat, c: Census,
      blocks: seq<Block>, v: nat, ts: set<Token>, d: nat, rule: Rule, pos: nat, i: nat, j: nat)
    returns (nulls: set<nat>)
    requires Rewritten(n, rules, terminals, start, c, blocks, v) && TokensOk(terminals, ts)
    requires Chaf.RuleOk(rule) && pos <= |rule.rhs| && (forall b | b in rule.rhs :: b in c.accessible)
    requires forall k | 0 <= k < |rule.rhs| :: rule.kinds[k] == KindOf(c, rule.rhs[k])
    requires DerivesAll(Kept(rules, c.productive), ts, d, ProperAll(rule.rhs[pos..]), i, j)
    ensures PatternOk(rule, pos, nulls, i < j)
    ensures SpellsAll(Internal(Whole(blocks, start, v)), ts, Slice(rule, pos, |rule.rhs|, nulls), i, j)
    decreases d, 1 + |rule.rhs| - pos
  {
    hide Ready, BlocksOk, Internal, Whole, Kept, TokensOk, Spells, SpellsAll;
    var ps, qs := Internal(Whole(blocks, start, v)), Kept(rules, c.productive);
    var body := ProperAll(rule.rhs[pos..]);
    if pos == |rule.rhs| {
      nulls := {};
      SpellsNothing(ps, ts, i);
      assert Slice(rule, pos, |rule.rhs|, nulls) == [];
    } else {
      var m: nat :| Derives(qs, ts, d, body[0], i, m) && DerivesAll(qs, ts, d, body[1..], m, j);
      assert body[1..] == ProperAll(rule.rhs[pos + 1..]);
      var rest := RuleIsInternal(n, rules, terminals, start, c, blocks, v, ts, d, rule, pos + 1, m, j);
      var empty := SymbolIsInternal(n, rules, terminals, start, c, blocks, v, ts, d, rule, pos, i, m);
      nulls := if empty then rest + {pos} else rest;
      AllOrder(qs, ts, d, body[1..], m, j);
      Order(qs, ts, d, body[0], i, m);
      PatternAdded(rule, pos, rest, empty, i < m, m < j);
      SpellsOne(ps, ts, At(rule, pos, empty), i, m);
      SpellsJoin(ps, ts, [At(rule, pos, empty)], Slice(rule, pos + 1, |rule.rhs|, rest), i, m, j);
    }
  }

  lemma PatternAdded(rule: Rule, pos: nat, rest: set<nat>, empty: bool, here: bool, there: bool)
    requires Chaf.RuleOk(rule) && pos < |rule.rhs| && PatternOk(rule, pos + 1, rest, there)
    requires empty ==> rule.kinds[pos] == ProperNullable
    requires here ==> !empty && rule.kinds[pos] != Nulling
    ensures PatternOk(rule, pos, if empty then rest + {pos} else rest, here || there)
    ensures Slice(rule, pos, |rule.rhs|, if empty then rest + {pos} else rest) ==
            [At(rule, pos, empty)] + Slice(rule, pos + 1, |rule.rhs|, rest)
  {
    var nulls := if empty then rest + {pos} else rest;
    assert pos !in rest;
    if here {
      assert StandsAt(rule, pos, nulls, pos);
    } else if there {
      var p: nat :| StandsAt(rule, pos + 1, rest, p);
      assert StandsAt(rule, pos, nulls, p);
    }
  }

  /** One symbol of a BNF rule: null if it is proper nullable and spans nothing. */
  lemma {:induction false} SymbolIsInternal(n: nat, rules: seq<Xrl>, terminals: set<nat>, start: nat, c: Census,
      blocks: seq<Block>, v: nat, ts: set<Token>, d: nat, rule: Rule, pos: nat, i: nat, m: nat)
    returns (empty: bool)
    requires Rewritten(n, rules, terminals, start, c, blocks, v) && TokensOk(terminals, ts)
    requires Chaf.RuleOk(rule) && pos < |rule.rhs| && rule.rhs[pos] in c.accessible
        && rule.kinds[pos] == KindOf(c, rule.rhs[pos])
    requires Derives(Kept(rules, c.productive), ts, d, Proper(rule.rhs[pos]), i, m)
    ensures empty ==> rule.kinds[pos] == ProperNullable
    ensures i < m ==> !empty && rule.kinds[pos] != Nulling
    ensures Spells(Internal(Whole(blocks, start, v)), ts, At(rule, pos, empty), i, m)
    decreases d, 1
  {
    hide Ready, BlocksOk, Internal, Whole, Kept, TokensOk, Spells, SpellsAll;
    var x := rule.rhs[pos];
    empty := false;
    if x in c.nulling {
      NullingSpansNothing(n, rules, terminals, start, c, ts, d, x, i, m);
      NulledSpells(Whole(blocks, start, v), ts, x, i);
    } else {
      Order(Kept(rules, c.productive), ts, d, Proper(x), i, m);
      if i == m {
        VanishingIsNullable(n, rules, terminals, start, c, ts, d, Proper(x), i);
        empty := true;
        NulledSpells(Whole(blocks, start, v), ts, x, i);
      } else {
        ExternalIsInternal(n, rules, terminals, start, c, blocks, v, ts, d, x, i, m);
      }
    }
  }

  /** A null pattern that leaves something standing is spanned through the pieces of the rule. */
  lemma PatternSpans(c: Census, blocks: seq<Block>, start: nat, v: nat, ts: set<Token>, k: nat, nulls: set<nat>,
      i: nat, j: nat)
    requires k < |blocks| && BlockOk(c, blocks[k]) && !blocks[k].rule.isSequence
    requires PatternOk(WithKinds(c, blocks[k].rule), 0, nulls, true)
    requires SpellsAll(Internal(Whole(blocks, start, v)), ts,
        Slice(WithKinds(c, blocks[k].rule), 0, |blocks[k].rule.rhs|, nulls), i, j)
    ensures Spells(Internal(Whole(blocks, start, v)), ts, Proper(blocks[k].rule.lhs), i, j)
  {
    hide Used, Internal, Whole, SpellsAll, Spells, Chain, Pieces, Slice;
    var b, rule := blocks[k], WithKinds(c, blocks[k].rule);
    var fs, suffix :| PieceBlock(c, b, fs, suffix);
    var lhs, out := Proper(rule.lhs), Slice(rule, 0, |rule.rhs|, nulls);
    PatternAllowed(rule, fs, suffix, nulls);
    hide FactorsOf, SuffixOf, PatternOk;
    if fs == [] {
      CloneIsChain(rule, suffix, nulls);
      ChainSpans(blocks, start, v, ts, k, lhs, [Last(rule, lhs, 0, {}, 3)], out, i, j);
    } else {
      ChainForSpells(rule, suffix, lhs, 0, fs, b.first, nulls);
      ChainSpans(blocks, start, v, ts, k, lhs, ChainFor(rule, suffix, lhs, 0, fs, b.first, nulls), out, i, j);
    }
  }

  lemma PatternAllowed(rule: Rule, fs: seq<nat>, suffix: nat, nulls: set<nat>)
    requires Chaf.RuleOk(rule) && FactorsOf(rule, fs, 0) && SuffixOf(rule, suffix) && PatternOk(rule, 0, nulls, true)
    ensures Allowed(0, suffix, fs, nulls)
  {
    var p: nat :| StandsAt(rule, 0, nulls, p);
    if rule.kinds[p] == ProperNullable {
      assert p in fs && p in ToSet(fs);
    }
  }

  // ---------------------------------------------------------------- the language is kept

  /** The rewrite keeps the language: an accessible symbol spans exactly the same input in the internal grammar as
      in the external one, leaving empty spans to the null versions. */
  lemma LanguageKept(n: nat, rules: seq<Xrl>, terminals: set<nat>, start: nat, c: Census, blocks: seq<Block>, v: nat,
      ts: set<Token>, a: nat, i: nat, j: nat)
    requires Rewritten(n, rules, terminals, start, c, blocks, v) && TokensOk(terminals, ts)
    requires a in c.accessible && i < j
    ensures Spells(Internal(Whole(blocks, start, v)), ts, Proper(a), i, j) <==>
        Spells(Kept(rules, c.productive), ts, Proper(a), i, j)
  {
    hide Rewritten, Internal, Whole, Kept, TokensOk;
    if d: nat :| Derives(Internal(Whole(blocks, start, v)), ts, d, Proper(a), i, j) {
      InternalIsExternal(n, rules, terminals, start, c, blocks, v, ts, d, a, i, j);
    }
    if d: nat :| Derives(Kept(rules, c.productive), ts, d, Proper(a), i, j) {
      ExternalIsInternal(n, rules, terminals, start, c, blocks, v, ts, d, a, i, j);
    }
  }

  /** For a grammar whose sequences are taken literally that is the documented language. */
  lemma DocumentedLanguageKept(n: nat, rules: seq<Xrl>, terminals: set<nat>, start: nat, c: Census, blocks: seq<Block>,
      v: nat, ts: set<Token>, a: nat, i: nat, j: nat)
    requires Rewritten(n, rules, terminals, start, c, blocks, v) && TokensOk(terminals, ts)
    requires a in c.accessible && i < j && AllLiteral(rules, c.productive)
    ensures Spells(Internal(Whole(blocks, start, v)), ts, Proper(a), i, j) <==>
        Spells(Documented(rules), ts, Proper(a), i, j)
  {
    LanguageKept(n, rules, terminals, start, c, blocks, v, ts, a, i, j);
    SameProductions(rules, c.productive);
  }

  /** And the null versions stand for exactly the symbols that can be empty. */
  lemma NullableExact(n: nat, rules: seq<Xrl>, terminals: set<nat>, start: nat, c: Census, ts: set<Token>, a: nat,
      i: nat)
    requires Ready(n, rules, terminals, start, c)
    ensures Spells(Kept(rules, c.productive), ts, Proper(a), i, i) <==> a in c.nullable
  {
    hide Ready, Kept;
    if d: nat :| Derives(Kept(rules, c.productive), ts, d, Proper(a), i, i) {
      VanishingIsNullable(n, rules, terminals, start, c, ts, d, Proper(a), i);
    }
    if a in c.nullable {
      NullableVanishes(n, rules, terminals, start, c, ts, a);
    }
  }

  // ---------------------------------------------------------------- two grammars where the language changes

  /** One or more of symbol 1, separated by symbol 2, which is neither a terminal nor a left side. */
  const SEPARATED := [Xrl(0, [1], true, 1, 2, false)]

  /** At least two of symbol 1. */
  const PAIRED := [Xrl(0, [1], true, 2, -1, false)]

  lemma LoneItem(rules: seq<Xrl>, ps: iset<Production>)
    requires (Proper(0), [Proper(1)]) in ps
    ensures Spells(ps, {Token(1, 0, 1)}, Proper(0), 0, 1)
  {
    var ts := {Token(1, 0, 1)};
    SpellsToken(ps, ts, Proper(1), 0, 1);
    SpellsOne(ps, ts, Proper(1), 0, 1);
    SpellsBy(ps, ts, Proper(0), [Proper(1)], 0, 1);
  }

  /** The separator is unproductive, and with it the rule is dropped, though a lone item needs no separator. */
  lemma LoneItemLost(c: Census)
    requires CensusOk(3, SEPARATED, {1}, 0, c)
    ensures Spells(Documented(SEPARATED), {Token(1, 0, 1)}, Proper(0), 0, 1)
    ensures !Spells(Kept(SEPARATED, c.productive), {Token(1, 0, 1)}, Proper(0), 0, 1)
  {
    var rule := SEPARATED[0];
    var q := AsSequence(rule);
    assert ListBody(q, 1, Items(q, 1)) && Items(q, 1) == [Proper(1)];
    assert Body(rule, [Proper(1)]);
    LoneItem(SEPARATED, Documented(SEPARATED));
    SeparatorUnproductive(c);
    DroppedRule(c.productive);
    assert forall d: nat :: !Derives(Kept(SEPARATED, c.productive), {Token(1, 0, 1)}, d, Proper(0), 0, 1);
  }

  lemma DroppedRule(productive: set<nat>)
    requires 2 !in productive
    ensures forall body: seq<Nsy> :: (Proper(0), body) !in Kept(SEPARATED, productive)
  {
  }

  lemma SeparatorUnproductive(c: Census)
    requires CensusOk(3, SEPARATED, {1}, 0, c)
    ensures 2 !in c.productive
  {
    var seed :| SeedOk(SEPARATED, seed) && LeastClosed(SEPARATED, seed, c.nullable);
    assert forall a: nat :: !EmptyLhs(SEPARATED, a);
    assert seed == {};
    assert 1 in SEPARATED[0].rhs;
    assert Nullables.Closed(SEPARATED, {}) && Nullables.Closed(SEPARATED, {0, 1});
    assert c.nullable <= {} && c.nullable + {1} <= {0, 1};
  }

  /** The minimum is ignored: a lone item is accepted where two are asked for. */
  lemma LoneItemGained(productive: set<nat>)
    ensures Spells(Kept(PAIRED, productive), {Token(1, 0, 1)}, Proper(0), 0, 1)
    ensures !Spells(Documented(PAIRED), {Token(1, 0, 1)}, Proper(0), 0, 1)
  {
    var rule := PAIRED[0];
    var q := AsSequence(rule);
    assert ListBody(q, 1, Items(q, 1)) && Items(q, 1) == [Proper(1)];
    assert KeptBody(rule, productive, [Proper(1)]);
    LoneItem(PAIRED, Kept(PAIRED, productive));
    forall d: nat ensures !Derives(Documented(PAIRED), {Token(1, 0, 1)}, d, Proper(0), 0, 1) {
      TwoItemsNeedTwo(d);
    }
  }

  lemma PairedBody(body: seq<Nsy>)
    requires (Proper(0), body) in Documented(PAIRED)
    ensures |body| >= 2 && body[0] == body[1] == Proper(1)
  {
    var q := AsSequence(PAIRED[0]);
    var count: nat :| 2 <= count && ListBody(q, count, body);
    ListLength(q, count);
    ItemsMention(q, count);
    assert body[0] in body && body[1] in body;
  }

  lemma TwoItemsNeedTwo(d: nat)
    ensures !Derives(Documented(PAIRED), {Token(1, 0, 1)}, d, Proper(0), 0, 1)
  {
    hide Documented;
    var ps, ts := Documented(PAIRED), {Token(1, 0, 1)};
    if Derives(ps, ts, d, Proper(0), 0, 1) {
      var body: seq<Nsy> :| (Proper(0), body) in ps && DerivesAll(ps, ts, d - 1, body, 0, 1);
      PairedBody(body);
      var m: nat :| Derives(ps, ts, d - 1, body[0], 0, m) && DerivesAll(ps, ts, d - 1, body[1..], m, 1);
      var k: nat :| Derives(ps, ts, d - 1, body[1..][0], m, k) && DerivesAll(ps, ts, d - 1, body[1..][1..], k, 1);
      ItemReads(d - 1, 0, m);
      ItemReads(d - 1, m, k);
    }
  }

  lemma ItemReads(d: nat, i: nat, j: nat)
    requires Derives(Documented(PAIRED), {Token(1, 0, 1)}, d, Proper(1), i, j)
    ensures i == 0 && j == 1
  {
    assert forall body: seq<Nsy> :: (Proper(1), body) !in Documented(PAIRED);
  }
}
