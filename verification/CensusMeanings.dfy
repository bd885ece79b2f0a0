/** What the census says, told by the documented rules alone: which symbols derive something, and why a grammar is
    refused. */
module CensusMeanings {
  import opened Censuses
  import opened Chaf
  import opened Closures
  import opened Derivations
  import opened ExternalGrammars
  import opened Languages
  import opened Nullables
  import opened Sequences
  import opened GrammarRewrites
  import Compilations
  import Grammars
  import Recognizers

  /** Some tokens that are all terminals have the symbol spelled by the documented rules. */
  ghost predicate Producible(rules: seq<Xrl>, terminals: set<nat>, a: nat) {
    exists ts: set<Token>, i: nat, j: nat ::
      TokensOk(terminals, ts) && Spells(Documented(rules), ts, Proper(a), i, j)
  }

  /** The same from every place. */
  ghost predicate Anywhere(rules: seq<Xrl>, terminals: set<nat>, a: nat) {
    forall i: nat :: Somehow(rules, terminals, [Proper(a)], i)
  }

  ghost predicate Somehow(rules: seq<Xrl>, terminals: set<nat>, body: seq<Nsy>, i: nat) {
    exists ts: set<Token>, j: nat :: TokensOk(terminals, ts) && SpellsAll(Documented(rules), ts, body, i, j)
  }

  // ---------------------------------------------------------------- more tokens

  lemma {:induction false} MoreTokens(ps: iset<Production>, ts: set<Token>, us: set<Token>, d: nat, a: Nsy, i: nat,
      j: nat)
    requires ts <= us && Derives(ps, ts, d, a, i, j)
    ensures Derives(ps, us, d, a, i, j)
    decreases d, 0
  {
    if !Reads(ts, a, i, j) {
      var rhs :| (a, rhs) in ps && DerivesAll(ps, ts, d - 1, rhs, i, j);
      MoreTokensAll(ps, ts, us, d - 1, rhs, i, j);
    }
  }

  lemma {:induction false} MoreTokensAll(ps: iset<Production>, ts: set<Token>, us: set<Token>, d: nat, rhs: seq<Nsy>,
      i: nat, j: nat)
    requires ts <= us && DerivesAll(ps, ts, d, rhs, i, j)
    ensures DerivesAll(ps, us, d, rhs, i, j)
    decreases d, |rhs|
  {
    if rhs != [] {
      var m: nat :| Derives(ps, ts, d, rhs[0], i, m) && DerivesAll(ps, ts, d, rhs[1..], m, j);
      MoreTokens(ps, ts, us, d, rhs[0], i, m);
      MoreTokensAll(ps, ts, us, d, rhs[1..], m, j);
    }
  }

  lemma MoreSpells(ps: iset<Production>, ts: set<Token>, us: set<Token>, rhs: seq<Nsy>, i: nat, j: nat)
    requires ts <= us && SpellsAll(ps, ts, rhs, i, j)
    ensures SpellsAll(ps, us, rhs, i, j)
  {
    var d: nat :| DerivesAll(ps, ts, d, rhs, i, j);
    MoreTokensAll(ps, ts, us, d, rhs, i, j);
  }

  // ---------------------------------------------------------------- what the closure holds can be derived

  /** A body all of whose symbols can be derived anywhere can be too. */
  lemma {:induction false} BodyAnywhere(rules: seq<Xrl>, terminals: set<nat>, body: seq<Nsy>, i: nat)
    requires forall a | a in body :: a.Proper? && Anywhere(rules, terminals, a.xsy)
    ensures Somehow(rules, terminals, body, i)
    decreases |body|
  {
    hide Documented, Spells, SpellsAll;
    var ps := Documented(rules);
    if body == [] {
      SpellsNothing(ps, {}, i);
      assert TokensOk(terminals, {}) && SpellsAll(ps, {}, body, i, i);
    } else {
      assert body[0] in body && Anywhere(rules, terminals, body[0].xsy) && Somehow(rules, terminals, [body[0]], i);
      var ts, m: nat :| TokensOk(terminals, ts) && SpellsAll(ps, ts, [body[0]], i, m);
      assert forall a | a in body[1..] :: a in body;
      BodyAnywhere(rules, terminals, body[1..], m);
      var us, j: nat :| TokensOk(terminals, us) && SpellsAll(ps, us, body[1..], m, j);
      MoreSpells(ps, ts, ts + us, [body[0]], i, m);
      MoreSpells(ps, us, ts + us, body[1..], m, j);
      SpellsJoin(ps, ts + us, [body[0]], body[1..], i, m, j);
      assert body == [body[0]] + body[1..];
      assert TokensOk(terminals, ts + us) && SpellsAll(ps, ts + us, body, i, j);
    }
  }

  lemma RuleSomehow(rules: seq<Xrl>, terminals: set<nat>, a: Nsy, body: seq<Nsy>, i: nat)
    requires (a, body) in Documented(rules) && Somehow(rules, terminals, body, i)
    ensures Somehow(rules, terminals, [a], i)
  {
    hide Spells, SpellsAll, Documented;
    var ps := Documented(rules);
    var ts, j: nat :| TokensOk(terminals, ts) && SpellsAll(ps, ts, body, i, j);
    SpellsBy(ps, ts, a, body, i, j);
    SpellsOne(ps, ts, a, i, j);
    assert TokensOk(terminals, ts) && SpellsAll(ps, ts, [a], i, j);
  }

  lemma ByRule(rules: seq<Xrl>, terminals: set<nat>, r: nat, body: seq<Nsy>)
    requires r < |rules| && Body(rules[r], body)
    requires forall a | a in body :: a.Proper? && Anywhere(rules, terminals, a.xsy)
    ensures Anywhere(rules, terminals, rules[r].lhs)
  {
    hide Body, Spells, SpellsAll, Somehow;
    var ps, a := Documented(rules), Proper(rules[r].lhs);
    assert (a, body) in ps;
    forall i: nat ensures Somehow(rules, terminals, [a], i) {
      BodyAnywhere(rules, terminals, body, i);
      RuleSomehow(rules, terminals, a, body, i);
    }
  }

  /** A rule whose symbols are all there has a body made of them: a list as short as the rule allows. */
  lemma SupportedBody(rule: Xrl, s: set<nat>) returns (body: seq<Nsy>)
    requires WellFormed(rule) && Supported(rule, s)
    ensures Body(rule, body) && forall a | a in body :: a.Proper? && a.xsy in s
  {
    if rule.isSequence {
      var q, count := AsSequence(rule), if rule.minimum >= 2 then rule.minimum else 1;
      body := Items(q, count);
      assert ListBody(q, count, body);
      ItemsMention(q, count);
      assert rule.rhs[0] in rule.rhs;
      if count == 1 {
        assert body == [Proper(q.item)];
      }
    } else {
      body := ProperAll(rule.rhs);
    }
  }

  lemma ClosureAnywhere(n: nat, rules: seq<Xrl>, terminals: set<nat>, seed: set<nat>, s: set<nat>)
    requires RulesOk(n, rules) && SeedOk(rules, seed) && LeastClosed(rules, seed + terminals, s)
    ensures forall a | a in s :: Anywhere(rules, terminals, a)
  {
    hide Anywhere, Body, Documented;
    var good := set a | a in s && Anywhere(rules, terminals, a);
    forall a | a in seed ensures Anywhere(rules, terminals, a) {
      var r :| 0 <= r < |rules| && IsEmpty(rules[r]) && rules[r].lhs == a;
      EmptyBody(n, rules, r);
      ByRule(rules, terminals, r, []);
    }
    forall a | a in terminals ensures Anywhere(rules, terminals, a) {
      TokenAnywhere(rules, terminals, a);
    }
    forall r | 0 <= r < |rules| && Supported(rules[r], good) ensures rules[r].lhs in good {
      assert Nullables.RuleOk(n, rules[r]);
      var body := SupportedBody(rules[r], good);
      ByRule(rules, terminals, r, body);
      assert Supported(rules[r], s);
      SeedClosed(rules, terminals, seed, s);
    }
    assert Closed(rules, good) && seed + terminals <= good;
  }

  lemma SeedClosed(rules: seq<Xrl>, terminals: set<nat>, seed: set<nat>, s: set<nat>)
    requires SeedOk(rules, seed) && LeastClosed(rules, seed + terminals, s)
    ensures Closed(rules, s) && seed <= s && terminals <= s
  {
    forall r | 0 <= r < |rules| && rules[r].rhs == [] ensures rules[r].lhs in s {
      assert EmptyLhs(rules, rules[r].lhs);
    }
  }

  lemma EmptyBody(n: nat, rules: seq<Xrl>, r: nat)
    requires RulesOk(n, rules) && r < |rules| && IsEmpty(rules[r])
    ensures Body(rules[r], [])
  {
    assert Nullables.RuleOk(n, rules[r]);
  }

  lemma TokenAnywhere(rules: seq<Xrl>, terminals: set<nat>, a: nat)
    requires a in terminals
    ensures Anywhere(rules, terminals, a)
  {
    hide Documented, Spells, SpellsAll;
    forall i: nat ensures Somehow(rules, terminals, [Proper(a)], i) {
      var ts := {Token(a, i, i + 1)};
      SpellsToken(Documented(rules), ts, Proper(a), i, i + 1);
      SpellsOne(Documented(rules), ts, Proper(a), i, i + 1);
      assert TokensOk(terminals, ts) && SpellsAll(Documented(rules), ts, [Proper(a)], i, i + 1);
    }
  }

  // ---------------------------------------------------------------- and nothing else can

  lemma {:induction false} SeparatorInside(q: SequenceRule, count: nat)
    requires count >= 2 && q.hasSeparator
    ensures Proper(q.separator) in Items(q, count)
    decreases count
  {
    var front := Items(q, count - 1);
    assert Items(q, count) == front + Between(q);
    assert Items(q, count)[|front|] == Proper(q.separator);
  }

  /** A rule all of whose body is there is supported, or empty outright. */
  lemma BodySupport(rule: Xrl, body: seq<Nsy>, s: set<nat>)
    requires Body(rule, body) && forall a | a in body :: a.Proper? && a.xsy in s
    ensures Supported(rule, s) || IsEmpty(rule)
  {
    if rule.isSequence {
      if EnoughList(AsSequence(rule), body) {
        var q := AsSequence(rule);
        var count: nat :| q.minimum <= count && ListBody(q, count, body);
        ListLength(q, count);
        assert Proper(q.item) in body by { assert body[0] == Items(q, count)[0]; }
        if rule.minimum >= 2 && rule.separator >= 0 {
          SeparatorInside(q, count);
          assert Proper(q.separator) in body;
        }
      }
    } else {
      forall a | a in rule.rhs ensures a in s {
        var k :| 0 <= k < |rule.rhs| && rule.rhs[k] == a;
        assert body[k] == Proper(a) && body[k] in body;
      }
    }
  }

  lemma {:induction false} DerivedIn(rules: seq<Xrl>, terminals: set<nat>, s: set<nat>, ts: set<Token>, d: nat, a: Nsy,
      i: nat, j: nat)
    requires Closed(rules, s) && terminals <= s && (forall b: nat | EmptyLhs(rules, b) :: b in s)
    requires TokensOk(terminals, ts) && Derives(Documented(rules), ts, d, a, i, j)
    ensures a.Proper? && a.xsy in s
    decreases d, 0
  {
    hide Supported, Body;
    if !Reads(ts, a, i, j) {
      var ps := Documented(rules);
      var body :| (a, body) in ps && DerivesAll(ps, ts, d - 1, body, i, j);
      var r :| 0 <= r < |rules| && a == Proper(rules[r].lhs) && Body(rules[r], body);
      AllDerivedIn(rules, terminals, s, ts, d - 1, body, i, j);
      BodySupport(rules[r], body, s);
      assert IsEmpty(rules[r]) ==> EmptyLhs(rules, rules[r].lhs);
    }
  }

  lemma {:induction false} AllDerivedIn(rules: seq<Xrl>, terminals: set<nat>, s: set<nat>, ts: set<Token>, d: nat,
      body: seq<Nsy>, i: nat, j: nat)
    requires Closed(rules, s) && terminals <= s && (forall b: nat | EmptyLhs(rules, b) :: b in s)
    requires TokensOk(terminals, ts) && DerivesAll(Documented(rules), ts, d, body, i, j)
    ensures forall a | a in body :: a.Proper? && a.xsy in s
    decreases d, |body|
  {
    hide Closed, TokensOk, Documented, EmptyLhs;
    if body != [] {
      var ps := Documented(rules);
      var m: nat :| Derives(ps, ts, d, body[0], i, m) && DerivesAll(ps, ts, d, body[1..], m, j);
      DerivedIn(rules, terminals, s, ts, d, body[0], i, m);
      AllDerivedIn(rules, terminals, s, ts, d, body[1..], m, j);
      assert body == [body[0]] + body[1..];
    }
  }

  // ---------------------------------------------------------------- both ways

  lemma ClosureExact(n: nat, rules: seq<Xrl>, terminals: set<nat>, seed: set<nat>, s: set<nat>, a: nat)
    requires RulesOk(n, rules) && SeedOk(rules, seed) && LeastClosed(rules, seed + terminals, s)
    ensures a in s <==> Producible(rules, terminals, a)
  {
    SeedClosed(rules, terminals, seed, s);
    ClosureAnywhere(n, rules, terminals, seed, s);
    hide Closed, LeastClosed, Documented, RulesOk;
    if a in s {
      assert Anywhere(rules, terminals, a) && Somehow(rules, terminals, [Proper(a)], 0);
      var ts, j: nat :| TokensOk(terminals, ts) && SpellsAll(Documented(rules), ts, [Proper(a)], 0, j);
      SpellsOne(Documented(rules), ts, Proper(a), 0, j);
    }
    if ts, i: nat, j: nat :| TokensOk(terminals, ts) && Spells(Documented(rules), ts, Proper(a), i, j) {
      var d: nat :| Derives(Documented(rules), ts, d, Proper(a), i, j);
      DerivedIn(rules, terminals, s, ts, d, Proper(a), i, j);
    }
  }

  /** The symbols called productive are exactly those that some terminal tokens spell by the documented rules. */
  lemma ProductiveExact(n: nat, rules: seq<Xrl>, terminals: set<nat>, start: nat, c: Census, a: nat)
    requires RulesOk(n, rules) && CensusOk(n, rules, terminals, start, c)
    ensures a in c.productive <==> exists ts: set<Token>, i: nat, j: nat ::
        TokensOk(terminals, ts) && Spells(Documented(rules), ts, Proper(a), i, j)
  {
    hide Closed, Documented, RulesOk;
    var seed :| SeedOk(rules, seed) && LeastClosed(rules, seed, c.nullable);
    TwoSteps(rules, terminals, seed, c.nullable, c.productive);
    ClosureExact(n, rules, terminals, seed, c.productive, a);
  }

  /** Closing first the seed and then the terminals too comes to the same. */
  lemma TwoSteps(rules: seq<Xrl>, terminals: set<nat>, seed: set<nat>, nullable: set<nat>, productive: set<nat>)
    requires LeastClosed(rules, seed, nullable) && LeastClosed(rules, nullable + terminals, productive)
    ensures LeastClosed(rules, seed + terminals, productive)
  {
  }

  /** The symbols called nullable are exactly those that the documented rules spell with no tokens at all. */
  lemma NullableDocumented(n: nat, rules: seq<Xrl>, nullable: set<nat>, a: nat)
    requires RulesOk(n, rules) && NullableOk(rules, nullable)
    ensures a in nullable <==> exists i: nat, j: nat :: Spells(Documented(rules), {}, Proper(a), i, j)
  {
    hide Closed, Documented, RulesOk;
    var seed :| SeedOk(rules, seed) && LeastClosed(rules, seed, nullable);
    assert seed + {} == seed;
    ClosureExact(n, rules, {}, seed, nullable, a);
    forall ts: set<Token> | TokensOk({}, ts) ensures ts == {} {
    }
  }

  // ---------------------------------------------------------------- what leads where

  /** The symbol is on the right of the rule, as a separator or otherwise. */
  ghost predicate On(rule: Xrl, a: nat) {
    a in rule.rhs || (rule.isSequence && rule.separator == a)
  }

  ghost predicate Under(rules: seq<Xrl>, a: nat, b: nat) {
    exists r :: 0 <= r < |rules| && rules[r].lhs == a && On(rules[r], b)
  }

  ghost predicate Descent(rules: seq<Xrl>, p: seq<nat>) {
    |p| >= 2 && forall k | 0 < k < |p| :: Under(rules, p[k - 1], p[k])
  }

  ghost predicate LeadsTo(rules: seq<Xrl>, a: nat, b: nat) {
    exists p :: Descent(rules, p) && p[0] == a && p[|p| - 1] == b
  }

  lemma DescentIsWalk(n: nat, rules: seq<Xrl>, p: seq<nat>)
    requires RulesOk(n, rules)
    ensures Descent(rules, p) <==> Walk(ReachBits(n, rules), p)
  {
    var e := ReachBits(n, rules);
    forall a: nat, b: nat ensures Under(rules, a, b) <==> Bit(e, a, b) {
      assert Under(rules, a, b) <==> Leads(rules, a, b);
      if r :| 0 <= r < |rules| && rules[r].lhs == a && Mentions(rules[r], b) {
        assert Nullables.RuleOk(n, rules[r]);
      }
    }
  }

  lemma LeadsExact(n: nat, rules: seq<Xrl>, a: nat, b: nat)
    requires RulesOk(n, rules)
    ensures LeadsTo(rules, a, b) <==> Reaches(ReachBits(n, rules), a, b)
  {
    hide Descent, Walk, RulesOk, ReachBits;
    forall p ensures Descent(rules, p) <==> Walk(ReachBits(n, rules), p) {
      DescentIsWalk(n, rules, p);
    }
  }

  /** A symbol is called accessible exactly when the rules lead to it from the start symbol. */
  lemma AccessibleExact(n: nat, rules: seq<Xrl>, terminals: set<nat>, start: nat, c: Census, a: nat)
    requires RulesOk(n, rules) && CensusOk(n, rules, terminals, start, c)
    ensures a in c.accessible <==> a == start || LeadsTo(rules, start, a)
  {
    LeadsExact(n, rules, start, a);
  }

  /** And nulling exactly when it has rules and they lead to no terminal. */
  lemma NullingExact(n: nat, rules: seq<Xrl>, terminals: set<nat>, start: nat, c: Census, a: nat)
    requires RulesOk(n, rules) && CensusOk(n, rules, terminals, start, c)
    ensures a in c.nulling <==>
            (exists r :: 0 <= r < |rules| && rules[r].lhs == a) && !(exists t :: t in terminals && LeadsTo(rules, a, t))
  {
    hide LeadsTo, Reaches, ReachBits, RulesOk;
    forall t: nat ensures LeadsTo(rules, a, t) <==> Reaches(ReachBits(n, rules), a, t) {
      LeadsExact(n, rules, a, t);
    }
  }

  ghost predicate Standing(rules: seq<Xrl>, terminals: set<nat>, a: nat) {
    (forall r | 0 <= r < |rules| :: rules[r].lhs != a) || exists t :: t in terminals && LeadsTo(rules, a, t)
  }

  /** A rule is kept exactly when the rules lead to it from the start symbol, each of its symbols derives something, and
      one of them has no rules, being a terminal, or leads to a terminal. */
  lemma UsedExact(n: nat, rules: seq<Xrl>, terminals: set<nat>, start: nat, c: Census, r: nat)
    requires RulesOk(n, rules) && CensusOk(n, rules, terminals, start, c) && r < |rules|
    ensures Used(c, rules[r]) <==>
            && (rules[r].lhs == start || LeadsTo(rules, start, rules[r].lhs))
            && (forall a: nat | On(rules[r], a) :: Producible(rules, terminals, a))
            && (exists a: nat :: On(rules[r], a) && Standing(rules, terminals, a))
  {
    hide LeadsTo, CensusOk, Documented, Spells;
    AccessibleExact(n, rules, terminals, start, c, rules[r].lhs);
    forall a: nat ensures a in c.productive <==> Producible(rules, terminals, a) {
      ProductiveExact(n, rules, terminals, start, c, a);
    }
    forall a: nat ensures a !in c.nulling <==> Standing(rules, terminals, a) {
      NullingExact(n, rules, terminals, start, c, a);
    }
    hide Producible, Standing;
    var rule := rules[r];
    if b: nat :| On(rule, b) && Standing(rules, terminals, b) {
      assert b !in c.nulling;
    }
    if rule.isSequence && rule.separator >= 0 {
      var separator: nat := rule.separator;
      assert On(rule, separator);
    }
    forall a | a in rule.rhs ensures On(rule, a) {
    }
  }

  // ---------------------------------------------------------------- why a grammar is refused

  /** A symbol that may be read: one locked as a terminal, or one that is not locked and has no rules. */
  ghost predicate Readable(n: nat, rules: seq<Xrl>, locked: map<nat, bool>, a: nat) {
    a < n && if a in locked then locked[a] else forall r | 0 <= r < |rules| :: rules[r].lhs != a
  }

  /** Some sequence has an item or a separator that the documented rules spell with no tokens. */
  ghost predicate CountsEmpty(rules: seq<Xrl>) {
    exists r, a: nat :: 0 <= r < |rules| && rules[r].isSequence && On(rules[r], a) && SpellsEmpty(rules, a)
  }

  ghost predicate SpellsEmpty(rules: seq<Xrl>, a: nat) {
    exists i: nat, j: nat :: Spells(Documented(rules), {}, Proper(a), i, j)
  }

  /** Readable tokens spell the symbol somehow. */
  ghost predicate HasSentence(n: nat, rules: seq<Xrl>, locked: map<nat, bool>, a: nat) {
    exists ts: set<Token>, i: nat, j: nat ::
      (forall t | t in ts :: Readable(n, rules, locked, t.symbol)) && Spells(Documented(rules), ts, Proper(a), i, j)
  }

  /** A readable symbol has rules, and they lead to nothing readable. */
  ghost predicate NullingRead(n: nat, rules: seq<Xrl>, locked: map<nat, bool>) {
    exists a: nat :: Readable(n, rules, locked, a) && (exists r :: 0 <= r < |rules| && rules[r].lhs == a)
                     && forall t: nat | Readable(n, rules, locked, t) :: !LeadsTo(rules, a, t)
  }

  lemma CountedExact(n: nat, rules: seq<Xrl>, nullable: set<nat>)
    requires RulesOk(n, rules) && NullableOk(rules, nullable)
    ensures NoCountedNullable(rules, nullable) <==> !CountsEmpty(rules)
  {
    hide RulesOk, NullableOk, SpellsEmpty;
    forall a: nat ensures a in nullable <==> SpellsEmpty(rules, a) {
      EmptyExact(n, rules, nullable, a);
    }
    if r, a: nat :| 0 <= r < |rules| && Counts(rules[r], a) && a in nullable {
      assert On(rules[r], a) && SpellsEmpty(rules, a);
    }
    if r, a: nat :| 0 <= r < |rules| && rules[r].isSequence && On(rules[r], a) && SpellsEmpty(rules, a) {
      assert Counts(rules[r], a);
    }
  }

  lemma EmptyExact(n: nat, rules: seq<Xrl>, nullable: set<nat>, a: nat)
    requires RulesOk(n, rules) && NullableOk(rules, nullable)
    ensures a in nullable <==> SpellsEmpty(rules, a)
  {
    NullableDocumented(n, rules, nullable, a);
  }

  lemma StartExact(n: nat, rules: seq<Xrl>, locked: map<nat, bool>, terminals: set<nat>, start: nat, c: Census)
    requires RulesOk(n, rules) && TerminalsOk(n, rules, locked, terminals) && CensusOk(n, rules, terminals, start, c)
    ensures start in c.productive <==> HasSentence(n, rules, locked, start)
    ensures !(c.nulling !! terminals) <==> NullingRead(n, rules, locked)
  {
    ProducedExact(n, rules, locked, terminals, start, c, start);
    hide RulesOk, CensusOk, HasSentence, LeadsTo, Readable, TerminalsOk;
    forall a: nat
      ensures a in c.nulling <==>
              (exists r :: 0 <= r < |rules| && rules[r].lhs == a)
              && forall t: nat | Readable(n, rules, locked, t) :: !LeadsTo(rules, a, t)
    {
      NullingExact(n, rules, terminals, start, c, a);
    }
    assert !(c.nulling !! terminals) <==> exists a :: a in c.nulling && a in terminals;
  }

  /** What the census answers, told by the documented rules: each refusal is given exactly when its reason is the first
      that holds, and a grammar is taken exactly when there is none. */
  lemma AnswerExact(n: nat, rules: seq<Xrl>, locked: map<nat, bool>, start: int, result: CensusResult)
    requires RulesOk(n, rules) && ResultOk(n, rules, locked, start, result)
    ensures result == Failed(NoRules) <==> rules == []
    ensures result == Failed(NoStartSymbol) <==> rules != [] && start < 0
    ensures result == Failed(InvalidStartSymbol) <==> rules != [] && start >= n
    ensures result == Failed(StartNotLhs) <==>
            rules != [] && 0 <= start < n && forall r | 0 <= r < |rules| :: rules[r].lhs != start
    ensures var fine := 0 <= start < n && exists r :: 0 <= r < |rules| && rules[r].lhs == start;
            && (result == Failed(CountedNullable) <==> fine && CountsEmpty(rules))
            && (result == Failed(UnproductiveStart) <==>
                  fine && !CountsEmpty(rules) && !HasSentence(n, rules, locked, start))
            && (result == Failed(NullingTerminal) <==>
                  && fine && !CountsEmpty(rules) && HasSentence(n, rules, locked, start)
                  && NullingRead(n, rules, locked))
            && (result.Taken? <==>
                  && fine && !CountsEmpty(rules) && HasSentence(n, rules, locked, start)
                  && !NullingRead(n, rules, locked))
  {
    hide RulesOk, TerminalsOk, CensusOk, NullableOk, NoCountedNullable, CountsEmpty, HasSentence, NullingRead;
    match result
    case Failed(CountedNullable) =>
      var nullable :| NullableOk(rules, nullable) && !NoCountedNullable(rules, nullable);
      CountedExact(n, rules, nullable);
    case Failed(UnproductiveStart) =>
      var c, terminals :| TerminalsOk(n, rules, locked, terminals) && CensusOk(n, rules, terminals, start, c)
        && NoCountedNullable(rules, c.nullable) && start !in c.productive;
      CensusAnswers(n, rules, locked, terminals, start, c);
    case Failed(NullingTerminal) =>
      var c, terminals :| TerminalsOk(n, rules, locked, terminals) && CensusOk(n, rules, terminals, start, c)
        && NoCountedNullable(rules, c.nullable) && start in c.productive && !(c.nulling !! terminals);
      CensusAnswers(n, rules, locked, terminals, start, c);
    case Taken(c, terminals) =>
      CensusAnswers(n, rules, locked, terminals, start, c);
    case _ =>
  }

  lemma CensusAnswers(n: nat, rules: seq<Xrl>, locked: map<nat, bool>, terminals: set<nat>, start: nat, c: Census)
    requires RulesOk(n, rules) && TerminalsOk(n, rules, locked, terminals) && CensusOk(n, rules, terminals, start, c)
    ensures NoCountedNullable(rules, c.nullable) <==> !CountsEmpty(rules)
    ensures start in c.productive <==> HasSentence(n, rules, locked, start)
    ensures !(c.nulling !! terminals) <==> NullingRead(n, rules, locked)
  {
    CountedExact(n, rules, c.nullable);
    StartExact(n, rules, locked, terminals, start, c);
  }

  // ---------------------------------------------------------------- what a compiled grammar is told about its symbols

  /** In a compiled grammar a symbol may be read exactly when the documented rules say so, and has a number of its own
      exactly when the rules lead to it from the start symbol and it derives something. */
  lemma LexiconExact(n: nat, rules: seq<Xrl>, locked: map<nat, bool>, start: nat, g: Grammars.Grammar,
      lex: Recognizers.Lexicon, x: nat)
    requires Compilations.IsCompiled(n, rules, locked, start, g, lex)
    ensures lex.xsyCount == n && (x in lex.terminals <==> Readable(n, rules, locked, x))
    ensures x in lex.nsyOf <==> (x == start || LeadsTo(rules, start, x)) && HasSentence(n, rules, locked, x)
  {
    hide LeadsTo, Descent, Documented, Grammars.GrammarOk, BlocksOk, Compilations.NumberedOk, Accepted;
    var c, terminals, blocks, v :|
      TerminalsOk(n, rules, locked, terminals)
      && Compilations.CompiledFrom(n, rules, start, c, terminals, blocks, v, g, lex);
    AccessibleExact(n, rules, terminals, start, c, x);
    ProducedExact(n, rules, locked, terminals, start, c, x);
  }

  lemma ProducedExact(n: nat, rules: seq<Xrl>, locked: map<nat, bool>, terminals: set<nat>, start: nat, c: Census,
      x: nat)
    requires RulesOk(n, rules) && TerminalsOk(n, rules, locked, terminals) && CensusOk(n, rules, terminals, start, c)
    ensures forall a: nat :: a in terminals <==> Readable(n, rules, locked, a)
    ensures x in c.productive <==> HasSentence(n, rules, locked, x)
  {
    ProductiveExact(n, rules, terminals, start, c, x);
    hide RulesOk, CensusOk, Documented, Spells;
    forall a: nat ensures a in terminals <==> Readable(n, rules, locked, a) {
    }
    forall ts: set<Token>
      ensures TokensOk(terminals, ts) <==> forall t | t in ts :: Readable(n, rules, locked, t.symbol)
    {
    }
  }
}
