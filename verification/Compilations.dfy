/** From an external grammar to what the recognizer reads: census, rewrite, numbering, closures. */
module Compilations {
  import opened Censuses
  import opened Chaf
  import opened Derivations
  import opened ExternalGrammars
  import opened GrammarRewrites
  import opened Languages
  import opened Nullables
  import opened Rewriting
  import opened Sequences
  import EarleySets
  import Grammars
  import Observability
  import Precomputation
  import Recognizers

  // ---------------------------------------------------------------- numbering

  /** Internal symbols by number: the non-null versions first, then the virtual ones. Null versions carry no dot. */
  function Number(n: nat, a: Nsy): nat
    requires !a.Nulled?
  {
    if a.Proper? then a.xsy else n + a.id
  }

  /** A right side as dotted: without its nulls. */
  function Stripped(n: nat, rhs: seq<Nsy>): seq<nat> {
    if rhs == [] then []
    else
      var last := rhs[|rhs| - 1];
      Stripped(n, rhs[..|rhs| - 1]) + if last.Nulled? then [] else [Number(n, last)]
  }

  function Numbered(n: nat, irl: Irl): Grammars.Irl
    requires !irl.lhs.Nulled?
  {
    Grammars.Irl(Number(n, irl.lhs), Stripped(n, irl.rhs))
  }

  /** External symbols have numbers below `n`. */
  ghost predicate SymbolOk(n: nat, v: nat, a: Nsy) {
    if a.Virtual? then a.id < v else a.xsy < n
  }

  ghost predicate IrlOk(n: nat, v: nat, irl: Irl) {
    && !irl.lhs.Nulled? && SymbolOk(n, v, irl.lhs)
    && (forall a | a in irl.rhs :: SymbolOk(n, v, a))
    && StandsUp(irl)
  }

  /** The internal rules and the grammar made of them, with the start rule last. */
  ghost predicate NumberedOk(n: nat, irls: seq<Irl>, start: nat, v: nat, g: Grammars.Grammar) {
    && irls != [] && irls[|irls| - 1] == StartIrl(start, v) && start < n
    && (forall r | 0 <= r < |irls| - 1 :: IrlOk(n, v, irls[r]))
    && |g.irls| == |irls| && g.start == |irls| - 1 && g.symbolCount == n + v + 1
    && (forall r | 0 <= r < |irls| :: !irls[r].lhs.Nulled? && g.irls[r] == Numbered(n, irls[r]))
  }

  lemma {:induction false} StrippedHas(n: nat, rhs: seq<Nsy>, k: nat)
    requires k < |rhs| && !rhs[k].Nulled?
    ensures Stripped(n, rhs) != []
    decreases |rhs|
  {
    if k < |rhs| - 1 {
      StrippedHas(n, rhs[..|rhs| - 1], k);
    }
  }

  lemma {:induction false} StrippedFrom(n: nat, rhs: seq<Nsy>, x: nat) returns (k: nat)
    requires x in Stripped(n, rhs)
    ensures k < |rhs| && !rhs[k].Nulled? && Number(n, rhs[k]) == x
    decreases |rhs|
  {
    var last := |rhs| - 1;
    if x in Stripped(n, rhs[..last]) {
      k := StrippedFrom(n, rhs[..last], x);
    } else {
      k := last;
    }
  }

  /** Up to position `k` the stripped right side is the stripped first part. */
  lemma {:induction false} StrippedPrefix(n: nat, rhs: seq<Nsy>, k: nat)
    requires k <= |rhs|
    ensures Stripped(n, rhs[..k]) <= Stripped(n, rhs)
    decreases |rhs| - k
  {
    if k < |rhs| {
      StrippedPrefix(n, rhs, k + 1);
      assert rhs[..k + 1][..k] == rhs[..k];
    } else {
      assert rhs[..k] == rhs;
    }
  }

  lemma StrippedNext(n: nat, rhs: seq<Nsy>, k: nat)
    requires k < |rhs|
    ensures Stripped(n, rhs[..k + 1]) == Stripped(n, rhs[..k]) + if rhs[k].Nulled? then [] else [Number(n, rhs[k])]
    ensures Stripped(n, rhs[..k + 1]) <= Stripped(n, rhs)
    ensures !rhs[k].Nulled? ==>
        |Stripped(n, rhs[..k])| < |Stripped(n, rhs)| && Stripped(n, rhs)[|Stripped(n, rhs[..k])|] == Number(n, rhs[k])
  {
    assert rhs[..k + 1][..k] == rhs[..k];
    StrippedPrefix(n, rhs, k + 1);
  }

  /** The numbered grammar meets the recognizer's needs. */
  lemma NumberedRulesOk(n: nat, irls: seq<Irl>, start: nat, v: nat, g: Grammars.Grammar)
    requires NumberedOk(n, irls, start, v, g)
    ensures Grammars.RulesOk(g)
  {
    forall r: nat | r < |irls|
      ensures g.irls[r].rhs != [] && g.irls[r].lhs < g.symbolCount
      ensures forall a | a in g.irls[r].rhs :: a < n + v
      ensures g.irls[r].lhs == n + v ==> r == |irls| - 1
    {
      var irl := irls[r];
      if r == |irls| - 1 {
        assert Stripped(n, irl.rhs) == [start] by { assert irl.rhs[..0] == []; }
      } else {
        assert IrlOk(n, v, irl);
        var k: nat :| k < |irl.rhs| && !irl.rhs[k].Nulled?;
        StrippedHas(n, irl.rhs, k);
        forall a | a in g.irls[r].rhs ensures a < n + v {
          var m := StrippedFrom(n, irl.rhs, a);
          assert SymbolOk(n, v, irl.rhs[m]);
        }
      }
    }
    assert g.irls[g.start].lhs == n + v;
  }

  /** Symbols with the same number are the same symbol. */
  lemma NumberInjective(n: nat, v: nat, a: Nsy, b: Nsy)
    requires !a.Nulled? && !b.Nulled? && SymbolOk(n, v, a) && SymbolOk(n, v, b) && Number(n, a) == Number(n, b)
    ensures a == b
  {
  }

  // ---------------------------------------------------------------- numbered derivations are internal derivations

  lemma NulledEmpty(irls: seq<Irl>, ts: set<Token>, d: nat, a: Nsy, i: nat, j: nat)
    requires (forall irl | irl in irls :: !irl.lhs.Nulled?) && a.Nulled?
    requires Derives(Internal(irls), ts, d, a, i, j)
    ensures i == j
  {
  }

  /** The recognizer's path through a rule is a derivation of its right side. */
  lemma {:induction false} SpanIsInternal(n: nat, irls: seq<Irl>, start: nat, v: nat, g: Grammars.Grammar,
      ts: set<Token>, r: nat, k: nat, i: nat, j: nat, p: Path)
    requires NumberedOk(n, irls, start, v, g) && r < |irls| && k <= |irls[r].rhs| && forall t | t in ts :: t.symbol < n
    requires Spans(g, ts, r, |Stripped(n, irls[r].rhs[..k])|, i, j, p)
    ensures SpellsAll(Internal(irls), ts, irls[r].rhs[..k], i, j)
    decreases p, k
  {
    hide NumberedOk, Internal, Stripped, SpellsAll, Spells;
    RuleAt(n, irls, start, v, g, r);
    var rhs := irls[r].rhs;
    if k == 0 {
      assert rhs[..k] == [];
      NoneStripped(n);
      SpellsNothing(Internal(irls), ts, i);
    } else {
      StrippedNext(n, rhs, k - 1);
      var last := rhs[k - 1];
      assert rhs[..k] == rhs[..k - 1] + [last] && last in rhs;
      if last.Nulled? {
        SpanIsInternal(n, irls, start, v, g, ts, r, k - 1, i, j, p);
        NulledSpells(irls, ts, last.xsy, j);
        SpellsOne(Internal(irls), ts, last, j, j);
        SpellsJoin(Internal(irls), ts, rhs[..k - 1], [last], i, j, j);
      } else {
        SpanIsInternal(n, irls, start, v, g, ts, r, k - 1, i, p.mid, p.prev);
        CauseIsInternal(n, irls, start, v, g, ts, last, p.mid, j, p.cause);
        SpellsOne(Internal(irls), ts, last, p.mid, j);
        SpellsJoin(Internal(irls), ts, rhs[..k - 1], [last], i, p.mid, j);
      }
    }
  }

  lemma NoneStripped(n: nat)
    ensures Stripped(n, []) == []
  {
  }

  lemma RuleAt(n: nat, irls: seq<Irl>, start: nat, v: nat, g: Grammars.Grammar, r: nat)
    requires NumberedOk(n, irls, start, v, g) && r < |irls|
    ensures r < |g.irls| && !irls[r].lhs.Nulled? && SymbolOk(n, v + 1, irls[r].lhs)
    ensures g.irls[r].lhs == Number(n, irls[r].lhs) && g.irls[r].rhs == Stripped(n, irls[r].rhs)
    ensures forall a | a in irls[r].rhs :: SymbolOk(n, v + 1, a)
    ensures (irls[r].lhs, irls[r].rhs) in Internal(irls)
  {
    assert r < |irls| - 1 ==> IrlOk(n, v, irls[r]);
  }

  lemma {:induction false} CauseIsInternal(n: nat, irls: seq<Irl>, start: nat, v: nat, g: Grammars.Grammar,
      ts: set<Token>, a: Nsy, i: nat, j: nat, cause: Cause)
    requires NumberedOk(n, irls, start, v, g) && !a.Nulled? && SymbolOk(n, v + 1, a)
        && forall t | t in ts :: t.symbol < n
    requires Causes(g, ts, Number(n, a), i, j, cause)
    ensures Spells(Internal(irls), ts, a, i, j)
    decreases cause, 0
  {
    hide NumberedOk, Internal, Stripped, SpellsAll, Spells;
    match cause
    case Scan =>
      SpellsToken(Internal(irls), ts, a, i, j);
    case Complete(r, p) =>
      SameCount(n, irls, start, v, g);
      RuleAt(n, irls, start, v, g, r);
      NumberInjective(n, v + 1, irls[r].lhs, a);
      assert irls[r].rhs[..|irls[r].rhs|] == irls[r].rhs;
      SpanIsInternal(n, irls, start, v, g, ts, r, |irls[r].rhs|, i, j, p);
      SpellsBy(Internal(irls), ts, a, irls[r].rhs, i, j);
  }

  lemma SameCount(n: nat, irls: seq<Irl>, start: nat, v: nat, g: Grammars.Grammar)
    requires NumberedOk(n, irls, start, v, g)
    ensures |g.irls| == |irls|
  {
  }

  lemma NoNulledLhs(n: nat, irls: seq<Irl>, start: nat, v: nat, g: Grammars.Grammar)
    requires NumberedOk(n, irls, start, v, g)
    ensures forall irl | irl in irls :: !irl.lhs.Nulled?
  {
  }

  /** And a derivation of a right side is a path for the recognizer. */
  lemma {:induction false} InternalIsSpan(n: nat, irls: seq<Irl>, start: nat, v: nat, g: Grammars.Grammar,
      ts: set<Token>, r: nat, k: nat, d: nat, i: nat, j: nat)
    returns (p: Path)
    requires NumberedOk(n, irls, start, v, g) && r < |irls| && k <= |irls[r].rhs|
    requires DerivesAll(Internal(irls), ts, d, irls[r].rhs[..k], i, j)
    ensures Spans(g, ts, r, |Stripped(n, irls[r].rhs[..k])|, i, j, p)
    decreases d, 1 + k
  {
    hide NumberedOk, Internal, Stripped;
    RuleAt(n, irls, start, v, g, r);
    var rhs := irls[r].rhs;
    if k == 0 {
      assert rhs[..k] == [];
      NoneStripped(n);
      p := Nil;
    } else {
      StrippedNext(n, rhs, k - 1);
      var last := rhs[k - 1];
      assert rhs[..k] == rhs[..k - 1] + [last] && last in rhs;
      var m := SpellsSplit(Internal(irls), ts, d, rhs[..k - 1], [last], i, j);
      OneDerives(Internal(irls), ts, d, last, m, j);
      var prev := InternalIsSpan(n, irls, start, v, g, ts, r, k - 1, d, i, m);
      if last.Nulled? {
        NoNulledLhs(n, irls, start, v, g);
        NulledEmpty(irls, ts, d, last, m, j);
        p := prev;
      } else {
        var cause := InternalIsCause(n, irls, start, v, g, ts, last, d, m, j);
        p := Snoc(prev, m, cause);
      }
    }
  }

  lemma {:induction false} InternalIsCause(n: nat, irls: seq<Irl>, start: nat, v: nat, g: Grammars.Grammar,
      ts: set<Token>, a: Nsy, d: nat, i: nat, j: nat)
    returns (cause: Cause)
    requires NumberedOk(n, irls, start, v, g) && !a.Nulled?
    requires Derives(Internal(irls), ts, d, a, i, j)
    ensures Causes(g, ts, Number(n, a), i, j, cause)
    decreases d, 0
  {
    hide NumberedOk, Stripped;
    if Reads(ts, a, i, j) {
      cause := Scan;
    } else {
      var rhs :| (a, rhs) in Internal(irls) && DerivesAll(Internal(irls), ts, d - 1, rhs, i, j);
      var irl :| irl in irls && (a, rhs) == (irl.lhs, irl.rhs);
      var r: nat :| r < |irls| && irls[r] == irl;
      RuleAt(n, irls, start, v, g, r);
      assert irls[r].rhs[..|irls[r].rhs|] == irls[r].rhs;
      var p := InternalIsSpan(n, irls, start, v, g, ts, r, |irls[r].rhs|, d - 1, i, j);
      cause := Complete(r, p);
    }
  }

  // ---------------------------------------------------------------- the rewritten rules can be numbered

  ghost predicate FromRule(rule: Rule, irl: Irl) {
    forall a | a in irl.rhs :: a.Virtual? || a.xsy in rule.rhs
  }

  lemma LinkedFromRule(rule: Rule, lhs: Nsy, start: nat, end: nat, nulls: set<nat>, v: nat, rank: nat)
    requires Chaf.RuleOk(rule) && start <= end <= |rule.rhs|
    ensures FromRule(rule, Linked(rule, lhs, start, end, nulls, v, rank))
    ensures FromRule(rule, Last(rule, lhs, start, nulls, rank))
  {
    forall to: nat, a | start <= to <= |rule.rhs| && a in Slice(rule, start, to, nulls) ensures a.xsy in rule.rhs {
      var k :| 0 <= k < to - start && Slice(rule, start, to, nulls)[k] == a;
      assert a.xsy == rule.rhs[start + k];
    }
  }

  lemma {:induction false} PiecesFromRule(rule: Rule, suffix: nat, lhs: Nsy, start: nat, fs: seq<nat>, v: nat)
    requires Chaf.RuleOk(rule) && start <= |rule.rhs| && fs != [] && FactorsOf(rule, fs, start)
    ensures forall irl | irl in Pieces(rule, suffix, lhs, start, fs, v) :: FromRule(rule, irl)
    decreases |fs|
  {
    hide FactorsOf, FromRule, StepPieces, FinalPieces;
    if |fs| >= 3 {
      NextFactorsOk(rule, suffix, start, fs);
      FirstFactors(rule, start, fs);
      PiecesFromRule(rule, suffix, Virtual(v), NextStart(suffix, fs), NextFactors(suffix, fs), v + 1);
      forall irl | irl in StepPieces(rule, suffix, lhs, start, fs[0], fs[1], v) ensures FromRule(rule, irl) {
        var m, linked := StepPieceForm(rule, suffix, lhs, start, fs, v, irl);
        LinkedFromRule(rule, lhs, start, NextStart(suffix, fs), m, v, RankOf(suffix, fs, m));
        LinkedFromRule(rule, lhs, start, NextStart(suffix, fs), m + From(fs[1], |rule.rhs|), v,
            if fs[0] in m then 0 else 2);
      }
    } else {
      forall irl | irl in FinalPieces(rule, suffix, lhs, start, fs) ensures FromRule(rule, irl) {
        var m := FinalPieceForm(rule, suffix, lhs, start, fs, irl);
        LinkedFromRule(rule, lhs, start, start, m, v, RankOf(suffix, fs, m));
      }
    }
  }

  /** The rules of a block can be numbered, and none of them is empty. */
  lemma BlockIrlOk(n: nat, c: Census, b: Block, v: nat, irl: Irl)
    requires BlockOk(c, b) && Nullables.RuleOk(n, b.rule) && b.next <= v && irl in b.irls
    ensures IrlOk(n, v, irl)
  {
    BlockIds(c, b, irl);
    if b.rule.isSequence {
      SequenceIrlOk(n, b, v, irl);
    } else {
      PieceIrlOk(n, c, b, irl);
    }
  }

  lemma SequenceIrlOk(n: nat, b: Block, v: nat, irl: Irl)
    requires b.rule.isSequence && Nullables.RuleOk(n, b.rule) && b.next == b.first + 1 <= v
    requires b.irls == SequenceIrls(AsSequence(b.rule), b.first) && irl in b.irls
    ensures StandsUp(irl) && forall a | a in irl.rhs :: SymbolOk(n, v, a)
  {
    var q := AsSequence(b.rule);
    assert q.item in b.rule.rhs;
    assert irl in [Top(q, b.first), Trailing(q, b.first), Single(q, b.first), More(q, b.first)];
    assert irl == Trailing(q, b.first) ==> q.hasSeparator by { RulesOfList(q, b.first, irl); }
    assert !irl.rhs[0].Nulled?;
  }

  lemma PieceIrlOk(n: nat, c: Census, b: Block, irl: Irl)
    requires BlockOk(c, b) && !b.rule.isSequence && Nullables.RuleOk(n, b.rule) && irl in b.irls
    ensures StandsUp(irl) && forall a | a in irl.rhs :: a.Virtual? || a.xsy < n
  {
    var rule := WithKinds(c, b.rule);
    var lhs := Proper(rule.lhs);
    var fs, suffix :| PieceBlock(c, b, fs, suffix);
    hide Pieces, FactorsOf, SuffixOf, Slice, StandsUp;
    if fs == [] {
      LinkedFromRule(rule, lhs, 0, 0, {}, b.first, 3);
      var k := SomethingStands(c, b.rule, fs);
      SliceStandsUp(rule, suffix, lhs, 0, {}, 3, k);
    } else {
      PiecesFromRule(rule, suffix, lhs, 0, fs, b.first);
      PiecesStandUp(rule, suffix, lhs, 0, fs, b.first);
    }
  }

  lemma SomethingStands(c: Census, rule: Xrl, fs: seq<nat>) returns (k: nat)
    requires Used(c, rule) && !rule.isSequence
    ensures k < |rule.rhs| && KindOf(c, rule.rhs[k]) != Nulling
  {
    var a :| a in rule.rhs && a !in c.nulling;
    k :| k < |rule.rhs| && rule.rhs[k] == a;
  }

  lemma WholeNumbered(n: nat, rules: seq<Xrl>, terminals: set<nat>, start: nat, c: Census, blocks: seq<Block>, v: nat,
      g: Grammars.Grammar)
    requires Rewritten(n, rules, terminals, start, c, blocks, v)
    requires var irls := Whole(blocks, start, v);
             && |g.irls| == |irls| && g.start == |irls| - 1 && g.symbolCount == n + v + 1
             && (forall r | 0 <= r < |irls| :: !irls[r].lhs.Nulled? && g.irls[r] == Numbered(n, irls[r]))
    ensures NumberedOk(n, Whole(blocks, start, v), start, v, g)
  {
    hide BlocksOk, BlockOk, IrlOk, Numbered;
    var irls := Whole(blocks, start, v);
    forall r | 0 <= r < |irls| - 1 ensures IrlOk(n, v, irls[r]) {
      var irl := irls[r];
      assert irl == Flat(blocks)[r];
      FlatHas(blocks, irl);
      var k :| 0 <= k < |blocks| && irl in blocks[k].irls;
      BlockAt(c, rules, blocks, v, k);
      RuleFound(n, rules, blocks[k].rule);
      BlockIrlOk(n, c, blocks[k], v, irl);
    }
  }

  lemma RuleFound(n: nat, rules: seq<Xrl>, rule: Xrl)
    requires RulesOk(n, rules) && rule in rules
    ensures Nullables.RuleOk(n, rule)
  {
  }

  // ---------------------------------------------------------------- compiling

  datatype Outcome =
    | Refused(error: CensusError)
    | Trivial
    | Compiled(g: Grammars.Grammar, lex: Recognizers.Lexicon)

  /** What a compiled grammar is made of. */
  ghost predicate CompiledFrom(n: nat, rules: seq<Xrl>, start: nat, c: Census, terminals: set<nat>, blocks: seq<Block>,
      v: nat, g: Grammars.Grammar, lex: Recognizers.Lexicon)
  {
    && Rewritten(n, rules, terminals, start, c, blocks, v) && start !in c.nulling
    && NumberedOk(n, Whole(blocks, start, v), start, v, g) && Grammars.GrammarOk(g)
    && lex == Recognizers.Lexicon(n, map a: nat | a in c.accessible && a in c.productive :: a, terminals)
  }

  ghost predicate IsCompiled(n: nat, rules: seq<Xrl>, locked: map<nat, bool>, start: nat, g: Grammars.Grammar,
      lex: Recognizers.Lexicon)
  {
    exists c, terminals, blocks, v ::
      TerminalsOk(n, rules, locked, terminals) && CompiledFrom(n, rules, start, c, terminals, blocks, v, g, lex)
  }

  /** A recognizer can be made for any compiled grammar: all its symbols have numbers of the grammar. */
  lemma CompiledFits(n: nat, rules: seq<Xrl>, locked: map<nat, bool>, start: nat, g: Grammars.Grammar,
      lex: Recognizers.Lexicon)
    requires IsCompiled(n, rules, locked, start, g, lex)
    ensures Grammars.GrammarOk(g) && Recognizers.LexiconOk(g, lex)
  {
    hide TerminalsOk, BlocksOk, Whole, ReachBits, Grammars.GrammarOk, Accepted, NullableOk, LeastClosed;
    var c, terminals, blocks, v :|
      TerminalsOk(n, rules, locked, terminals) && CompiledFrom(n, rules, start, c, terminals, blocks, v, g, lex);
    forall x | x in lex.nsyOf ensures lex.nsyOf[x] < g.symbolCount {
      ReachedBelow(n, rules, start, x);
    }
  }

  /** Start a recognizer for a compiled grammar. */
  method NewRecognizer(ghost n: nat, ghost rules: seq<Xrl>, ghost locked: map<nat, bool>, ghost start: nat,
      g: Grammars.Grammar, lex: Recognizers.Lexicon)
    returns (r: Recognizers.Recognizer)
    requires IsCompiled(n, rules, locked, start, g, lex)
    ensures fresh(r) && r.Valid() && r.g == g && r.lex == lex && r.phase.BeforeInput?
  {
    CompiledFits(n, rules, locked, start, g, lex);
    hide *;
    r := new Recognizers.Recognizer(g, lex);
  }

  method NumberAll(n: nat, irls: seq<Irl>) returns (numbered: seq<Grammars.Irl>)
    requires forall r | 0 <= r < |irls| :: !irls[r].lhs.Nulled?
    ensures |numbered| == |irls| && forall r | 0 <= r < |irls| :: numbered[r] == Numbered(n, irls[r])
  {
    numbered := [];
    for r := 0 to |irls|
      invariant |numbered| == r && forall q | 0 <= q < r :: numbered[q] == Numbered(n, irls[q])
    {
      numbered := numbered + [Numbered(n, irls[r])];
    }
  }

  /** Precompute a grammar. It is refused for the first thing wrong with it, trivial when nothing but the empty
      sentence could be in its language, and otherwise ready for the recognizer. */
  method Compile(n: nat, rules: seq<Xrl>, locked: map<nat, bool>, start: int) returns (outcome: Outcome)
    requires RulesOk(n, rules)
    ensures outcome.Refused? ==> ResultOk(n, rules, locked, start, Failed(outcome.error))
    ensures outcome.Trivial? ==>
        exists c, terminals :: ResultOk(n, rules, locked, start, Taken(c, terminals)) && start in c.nulling
    ensures outcome.Compiled? ==>
        StartFine(n, rules, start) && IsCompiled(n, rules, locked, start, outcome.g, outcome.lex)
  {
    hide RulesOk, Ready, BlocksOk, TerminalsOk, Whole, NumberedOk, Numbered, Grammars.RulesOk, Grammars.GrammarOk;
    var result := TakeCensus(n, rules, locked, start);
    if result.Failed? {
      return Refused(result.error);
    }
    var c, terminals := result.census, result.terminals;
    if start in c.nulling {
      return Trivial;
    }
    var rewriter := new Rewriter();
    ghost var blocks := RewriteRules(n, rules, c, rewriter);
    var v := rewriter.virtuals;
    var irls := rewriter.irls + [StartIrl(start, v)];
    WholeIs(blocks, start, v);
    NoNulledWhole(c, rules, blocks, start, v);
    var numbered := NumberAll(n, irls);
    ghost var bare := Precomputation.Bare(numbered, |irls| - 1, n + v + 1);
    WholeNumbered(n, rules, terminals, start, c, blocks, v, bare);
    NumberedRulesOk(n, irls, start, v, bare);
    var g := Precomputation.Precompute(numbered, |irls| - 1, n + v + 1);
    WholeNumbered(n, rules, terminals, start, c, blocks, v, g);
    var lex := Recognizers.Lexicon(n, map a: nat | a in c.accessible && a in c.productive :: a, terminals);
    assert CompiledFrom(n, rules, start, c, terminals, blocks, v, g, lex);
    return Compiled(g, lex);
  }

  lemma WholeIs(blocks: seq<Block>, start: nat, v: nat)
    ensures Whole(blocks, start, v) == Flat(blocks) + [StartIrl(start, v)]
  {
  }

  lemma NoNulledWhole(c: Census, rules: seq<Xrl>, blocks: seq<Block>, start: nat, v: nat)
    requires BlocksOk(c, rules, |rules|, blocks, v)
    ensures forall r | 0 <= r < |Whole(blocks, start, v)| :: !Whole(blocks, start, v)[r].lhs.Nulled?
  {
    forall r | 0 <= r < |Whole(blocks, start, v)| ensures !Whole(blocks, start, v)[r].lhs.Nulled? {
      Owner(c, rules, blocks, start, v, Whole(blocks, start, v)[r]);
    }
  }

  // ---------------------------------------------------------------- what is accepted

  /** The start rule is spanned exactly where the start symbol is. */
  lemma StartSpans(n: nat, irls: seq<Irl>, start: nat, v: nat, g: Grammars.Grammar, ts: set<Token>, j: nat)
    requires NumberedOk(n, irls, start, v, g) && forall t | t in ts :: t.symbol < n
    ensures Grammars.RulesOk(g)
    ensures Spanned(g, ts, Observability.StartDone(g), j) <==> Spells(Internal(irls), ts, Proper(start), 0, j)
  {
    hide Internal, Spells;
    NumberedRulesOk(n, irls, start, v, g);
    var r := |irls| - 1;
    var x := Observability.StartDone(g);
    assert irls[r].rhs[..1] == [Proper(start)] && Stripped(n, irls[r].rhs[..1]) == [start] == g.irls[r].rhs by {
      assert [Proper(start)][..0] == [];
      assert irls[r].rhs[..1] == irls[r].rhs;
      assert Stripped(n, [Proper(start)][..0]) == [];
      RuleAt(n, irls, start, v, g, r);
    }
    hide NumberedOk, Stripped;
    if p :| Spans(g, ts, x.irl, x.dot, x.origin, j, p) {
      SpanIsInternal(n, irls, start, v, g, ts, r, 1, 0, j, p);
      SpellsOne(Internal(irls), ts, Proper(start), 0, j);
    }
    if Spells(Internal(irls), ts, Proper(start), 0, j) {
      SpellsOne(Internal(irls), ts, Proper(start), 0, j);
      var d: nat :| DerivesAll(Internal(irls), ts, d, [Proper(start)], 0, j);
      var p := InternalIsSpan(n, irls, start, v, g, ts, r, 1, d, 0, j);
    }
  }

  /** Tokens that are read are terminals with their own numbers. */
  lemma TokensAreTerminals(n: nat, rules: seq<Xrl>, start: nat, c: Census, terminals: set<nat>, blocks: seq<Block>,
      v: nat, g: Grammars.Grammar, lex: Recognizers.Lexicon, ts: set<Token>)
    requires CompiledFrom(n, rules, start, c, terminals, blocks, v, g, lex) && Recognizers.TerminalsOnly(lex, ts)
    ensures TokensOk(terminals, ts) && forall t | t in ts :: t.symbol < n
  {
    hide Grammars.GrammarOk, NumberedOk, BlocksOk, Grammars.RulesOk;
    forall t | t in ts ensures t.symbol in terminals {
      var x :| x in lex.nsyOf && x in lex.terminals && lex.nsyOf[x] == t.symbol;
    }
  }

  lemma StartAccessible(n: nat, rules: seq<Xrl>, terminals: set<nat>, start: nat, c: Census)
    requires Ready(n, rules, terminals, start, c)
    ensures start in c.accessible
  {
  }

  /** No parse is ever complete at earleme 0: the rules of a compiled grammar are not empty. */
  lemma NothingDoneAtZero(g: Grammars.Grammar, ts: set<Token>)
    requires Grammars.RulesOk(g)
    ensures !Spanned(g, ts, Observability.StartDone(g), 0)
  {
    var x := Observability.StartDone(g);
    if p :| Spans(g, ts, x.irl, x.dot, x.origin, 0, p) {
      SpanOrder(g, ts, x.irl, x.dot, x.origin, 0, p);
    }
  }

  /** The recognizer for a compiled grammar accepts exactly the sentences of the external grammar, as the rewrite
      takes it: the completed start rule is in the set at `j` exactly when the accepted tokens spell the start
      symbol from 0 to `j` and `j` is not 0. The empty sentence is never in the sets; it is in the language exactly
      when the census calls the start symbol nullable. */
  lemma SentencesExact(n: nat, rules: seq<Xrl>, start: nat, c: Census, terminals: set<nat>, blocks: seq<Block>,
      v: nat, g: Grammars.Grammar, lex: Recognizers.Lexicon, ts: set<Token>, sets: EarleySets.Sets, m: nat, j: nat)
    requires CompiledFrom(n, rules, start, c, terminals, blocks, v, g, lex) && Recognizers.TerminalsOnly(lex, ts)
    requires EarleySets.SetsOk(g, ts, sets, m) && j < m
    ensures j in sets && Observability.StartDone(g) in sets[j].items ==> 0 < j
    ensures (j in sets && Observability.StartDone(g) in sets[j].items) || (j == 0 && start in c.nullable) <==>
            Spells(Kept(rules, c.productive), ts, Proper(start), 0, j)
  {
    TokensAreTerminals(n, rules, start, c, terminals, blocks, v, g, lex, ts);
    StartAccessible(n, rules, terminals, start, c);
    hide Grammars.RulesOk, Grammars.GrammarOk, NumberedOk, Rewritten, TokensOk, Spells, Spanned, EarleySets.SetsOk,
      Recognizers.TerminalsOnly;
    StartSpans(n, Whole(blocks, start, v), start, v, g, ts, j);
    Observability.AcceptanceExact(g, ts, sets, m, j);
    if j == 0 {
      NothingDoneAtZero(g, ts);
      NullableExact(n, rules, terminals, start, c, ts, start, 0);
    } else {
      LanguageKept(n, rules, terminals, start, c, blocks, v, ts, start, 0, j);
    }
  }

  /** From end to end: after any calls, a recognizer for a compiled grammar whose sequences are taken literally has
      the completed start rule at `j` exactly when `j` is not 0 and the tokens accepted so far spell the start
      symbol from 0 to `j` by the rules as documented; and the empty sentence is one by those rules exactly when the
      census calls the start symbol nullable. */
  lemma ParserExact(n: nat, rules: seq<Xrl>, start: nat, c: Census, terminals: set<nat>, blocks: seq<Block>, v: nat,
      r: Recognizers.Recognizer, j: nat)
    requires CompiledFrom(n, rules, start, c, terminals, blocks, v, r.g, r.lex) && AllLiteral(rules, c.productive)
    requires r.Valid() && !r.phase.BeforeInput? && j <= r.current
    ensures j in r.sets && Observability.StartDone(r.g) in r.sets[j].items ==> 0 < j
    ensures (j in r.sets && Observability.StartDone(r.g) in r.sets[j].items) || (j == 0 && start in c.nullable) <==>
            Spells(Documented(rules), r.tokens, Proper(start), 0, j)
  {
    RecognizerSets(r);
    hide CompiledFrom, AllLiteral, EarleySets.SetsOk, Recognizers.TerminalsOnly;
    SentencesExact(n, rules, start, c, terminals, blocks, v, r.g, r.lex, r.tokens, r.sets, r.current + 1, j);
    SameProductions(rules, c.productive);
  }

  /** The only item for the start rule with something before its dot is the completed one. */
  lemma StartItems(n: nat, irls: seq<Irl>, start: nat, v: nat, g: Grammars.Grammar, ts: set<Token>,
      sets: EarleySets.Sets, m: nat, j: nat)
    requires NumberedOk(n, irls, start, v, g) && Grammars.RulesOk(g)
    requires EarleySets.SetsOk(g, ts, sets, m) && j < m && j in sets
    ensures forall x | x in sets[j].items ::
              x.irl == g.start && x.origin == 0 && x.dot > 0 <==> x == Observability.StartDone(g)
  {
    assert EarleySets.SetOk(g, ts, sets, j);
    assert g.irls[g.start].rhs == [start] by {
      assert irls[g.start].rhs[..0] == [] && Stripped(n, irls[g.start].rhs[..0]) == [];
    }
    forall x | x in sets[j].items
      ensures x.irl == g.start && x.origin == 0 && x.dot > 0 <==> x == Observability.StartDone(g)
    {
      ValidInRange(g, ts, x, j);
    }
  }

  /** Look through a set for the start rule with its origin at 0, leaving predictions out. */
  method FindStart(g: Grammars.Grammar, items: seq<Item>) returns (found: bool)
    requires Grammars.RulesOk(g)
    requires forall x | x in items ::
               x.irl == g.start && x.origin == 0 && x.dot > 0 <==> x == Observability.StartDone(g)
    ensures found <==> Observability.StartDone(g) in items
  {
    for i := 0 to |items|
      invariant Observability.StartDone(g) !in items[..i]
    {
      var x := items[i];
      assert x in items;
      if x.origin > 0 || x.dot == 0 {
        continue;
      }
      if x.irl == g.start {
        return true;
      }
    }
    return false;
  }

  /** Look for a parse that ends at `end`: at 0 ask whether the start symbol is nullable, elsewhere look through the
      Earley set. There is one exactly when the tokens read spell the start symbol from 0 to `end`. */
  method FindParse(ghost n: nat, ghost rules: seq<Xrl>, ghost start: nat, ghost c: Census, ghost terminals: set<nat>,
      ghost blocks: seq<Block>, ghost v: nat, r: Recognizers.Recognizer, startIsNullable: bool, end: nat)
    returns (found: bool)
    requires CompiledFrom(n, rules, start, c, terminals, blocks, v, r.g, r.lex)
    requires r.Valid() && !r.phase.BeforeInput? && end <= r.current && (startIsNullable <==> start in c.nullable)
    ensures found <==> Spells(Kept(rules, c.productive), r.tokens, Proper(start), 0, end)
    ensures found && AllLiteral(rules, c.productive) ==> Spells(Documented(rules), r.tokens, Proper(start), 0, end)
    ensures !found && AllLiteral(rules, c.productive) ==> !Spells(Documented(rules), r.tokens, Proper(start), 0, end)
  {
    RecognizerSets(r);
    SentencesExact(n, rules, start, c, terminals, blocks, v, r.g, r.lex, r.tokens, r.sets, r.current + 1, end);
    if AllLiteral(rules, c.productive) {
      SameProductions(rules, c.productive);
    }
    hide *;
    if end == 0 {
      return startIsNullable;
    }
    if end !in r.sets {
      return false;
    }
    StartItems(n, Whole(blocks, start, v), start, v, r.g, r.tokens, r.sets, r.current + 1, end);
    found := FindStart(r.g, r.sets[end].items);
  }

  /** A grammar that is trivial has the empty sentence and no other. */
  lemma TrivialExact(n: nat, rules: seq<Xrl>, terminals: set<nat>, start: nat, c: Census, ts: set<Token>, j: nat)
    requires Ready(n, rules, terminals, start, c) && TokensOk(terminals, ts) && start in c.nulling
    ensures Spells(Kept(rules, c.productive), ts, Proper(start), 0, j) <==> j == 0
  {
    NullableExact(n, rules, terminals, start, c, ts, start, 0);
    ProductiveSplits(n, rules, terminals, start, c, start);
    hide Kept, Derives;
    if d: nat :| Derives(Kept(rules, c.productive), ts, d, Proper(start), 0, j) {
      NullingSpansNothing(n, rules, terminals, start, c, ts, d, start, 0, j);
    }
  }

  lemma RecognizerSets(r: Recognizers.Recognizer)
    requires r.Valid() && !r.phase.BeforeInput?
    ensures EarleySets.SetsOk(r.g, r.tokens, r.sets, r.current + 1) && Recognizers.TerminalsOnly(r.lex, r.tokens)
  {
  }
}
