/** The census: which symbols are nullable, productive, accessible and nulling, and which rules are used. */
module Censuses {
  import opened BitMatrices
  import opened Chaf
  import opened Closures
  import opened Derivations
  import opened ExternalGrammars
  import opened Languages
  import opened Nullables
  import opened Sequences

  datatype Census = Census(nullable: set<nat>, productive: set<nat>, accessible: set<nat>, nulling: set<nat>)

  // ---------------------------------------------------------------- what the census is

  /** The rule lets its left side be empty outright. */
  predicate IsEmpty(rule: Xrl) {
    rule.rhs == [] || (rule.isSequence && rule.minimum <= 0)
  }

  ghost predicate EmptyLhs(rules: seq<Xrl>, a: nat) {
    exists r :: 0 <= r < |rules| && IsEmpty(rules[r]) && rules[r].lhs == a
  }

  ghost predicate IsLhs(rules: seq<Xrl>, a: nat) {
    exists r :: 0 <= r < |rules| && rules[r].lhs == a
  }

  ghost predicate Leads(rules: seq<Xrl>, a: nat, b: nat) {
    exists r :: 0 <= r < |rules| && rules[r].lhs == a && Mentions(rules[r], b)
  }

  ghost function ReachBits(n: nat, rules: seq<Xrl>): (e: Bits)
    ensures Square(e) && |e| == n
    ensures forall i: nat, j: nat | i < n && j < n :: e[i][j] <==> Leads(rules, i, j)
  {
    seq(n, i requires 0 <= i < n => seq(n, j requires 0 <= j < n => Leads(rules, i, j)))
  }

  /** The left sides that the rules make empty outright. */
  ghost predicate SeedOk(rules: seq<Xrl>, seed: set<nat>) {
    forall a: nat :: a in seed <==> EmptyLhs(rules, a)
  }

  ghost predicate ReachesTerminal(n: nat, rules: seq<Xrl>, terminals: set<nat>, a: nat) {
    exists t :: t in terminals && Reaches(ReachBits(n, rules), a, t)
  }

  ghost predicate NullableOk(rules: seq<Xrl>, nullable: set<nat>) {
    exists seed :: SeedOk(rules, seed) && LeastClosed(rules, seed, nullable)
  }

  ghost predicate CensusOk(n: nat, rules: seq<Xrl>, terminals: set<nat>, start: nat, c: Census) {
    && NullableOk(rules, c.nullable)
    && LeastClosed(rules, c.nullable + terminals, c.productive)
    && (forall a: nat :: a in c.accessible <==> a == start || Reaches(ReachBits(n, rules), start, a))
    && (forall a: nat :: a in c.nulling <==> IsLhs(rules, a) && !ReachesTerminal(n, rules, terminals, a))
  }

  /** Items and separators of sequences. */
  predicate Counts(rule: Xrl, a: nat) {
    rule.isSequence && Mentions(rule, a)
  }

  ghost predicate NoCountedNullable(rules: seq<Xrl>, nullable: set<nat>) {
    forall r, a: nat | 0 <= r < |rules| && Counts(rules[r], a) :: a !in nullable
  }

  /** The census raised no error. */
  ghost predicate Accepted(rules: seq<Xrl>, terminals: set<nat>, start: nat, c: Census) {
    && NoCountedNullable(rules, c.nullable)
    && start in c.productive
    && c.nulling !! terminals
  }

  /** The rule is rewritten; others are dropped. */
  predicate Used(c: Census, rule: Xrl) {
    && rule.lhs in c.accessible
    && (forall a | a in rule.rhs :: a in c.productive)
    && (rule.isSequence && rule.separator >= 0 ==> rule.separator in c.productive)
    && ((exists a :: a in rule.rhs && a !in c.nulling) || (rule.isSequence && rule.separator >= 0
        && rule.separator !in c.nulling))
  }

  ghost predicate TokensOk(terminals: set<nat>, ts: set<Token>) {
    forall t | t in ts :: t.symbol in terminals
  }

  ghost predicate Ready(n: nat, rules: seq<Xrl>, terminals: set<nat>, start: nat, c: Census) {
    && RulesOk(n, rules) && (forall t | t in terminals :: t < n) && start < n
    && CensusOk(n, rules, terminals, start, c) && Accepted(rules, terminals, start, c)
  }

  // ---------------------------------------------------------------- the closures are closed

  lemma NullableClosed(rules: seq<Xrl>, nullable: set<nat>)
    requires NullableOk(rules, nullable)
    ensures Closed(rules, nullable)
    ensures forall a: nat | EmptyLhs(rules, a) :: a in nullable
  {
    var seed :| SeedOk(rules, seed) && LeastClosed(rules, seed, nullable);
    forall r | 0 <= r < |rules| && rules[r].rhs == [] ensures rules[r].lhs in nullable {
      assert EmptyLhs(rules, rules[r].lhs);
    }
  }

  lemma ProductiveClosed(n: nat, rules: seq<Xrl>, terminals: set<nat>, start: nat, c: Census)
    requires CensusOk(n, rules, terminals, start, c)
    ensures Closed(rules, c.productive)
    ensures c.nullable <= c.productive && terminals <= c.productive
  {
    NullableClosed(rules, c.nullable);
    forall r | 0 <= r < |rules| && rules[r].rhs == [] ensures rules[r].lhs in c.productive {
      assert EmptyLhs(rules, rules[r].lhs);
    }
  }

  // ---------------------------------------------------------------- what derives something is productive

  /** The symbols of a body are mentioned by its rule. */
  lemma BodyMentions(rule: Xrl, productive: set<nat>, body: seq<Nsy>)
    requires KeptBody(rule, productive, body)
    ensures forall a | a in body :: a.Proper? && Mentions(rule, a.xsy)
    ensures rule.isSequence && body != [] ==>
        Proper(rule.rhs[0]) in body && (rule.separator >= 0 ==> rule.separator in productive)
    ensures !rule.isSequence ==> body == ProperAll(rule.rhs)
  {
    if rule.isSequence && body != [] {
      var q := AsSequence(rule);
      var count: nat :| ListBody(q, count, body);
      ItemsMention(q, count);
      ListLength(q, count);
      assert body[0] == Proper(q.item);
    }
  }

  lemma {:induction false} ItemsMention(q: SequenceRule, count: nat)
    requires count > 0
    ensures forall a | a in Items(q, count) :: a == Proper(q.item) || (q.hasSeparator && a == Proper(q.separator))
    decreases count
  {
    if count > 1 {
      ItemsMention(q, count - 1);
    }
  }

  lemma {:induction false} DerivingIsProductive(n: nat, rules: seq<Xrl>, terminals: set<nat>, start: nat, c: Census,
      ts: set<Token>, d: nat, a: Nsy, i: nat, j: nat)
    requires Ready(n, rules, terminals, start, c) && TokensOk(terminals, ts)
    requires Derives(Kept(rules, c.productive), ts, d, a, i, j)
    ensures a.Proper? && a.xsy in c.productive
    decreases d, 0
  {
    hide CensusOk, LeastClosed, KeptBody;
    ProductiveClosed(n, rules, terminals, start, c);
    CensusNullable(n, rules, terminals, start, c);
    NullableClosed(rules, c.nullable);
    var ps := Kept(rules, c.productive);
    if !Reads(ts, a, i, j) {
      var body :| (a, body) in ps && DerivesAll(ps, ts, d - 1, body, i, j);
      var r :| 0 <= r < |rules| && a == Proper(rules[r].lhs) && KeptBody(rules[r], c.productive, body);
      AllProductive(n, rules, terminals, start, c, ts, d - 1, body, i, j);
      BodyMentions(rules[r], c.productive, body);
      BodySupports(rules, r, c, body);
    }
  }

  lemma BodySupports(rules: seq<Xrl>, r: nat, c: Census, body: seq<Nsy>)
    requires r < |rules| && KeptBody(rules[r], c.productive, body)
    requires Closed(rules, c.productive) && c.nullable <= c.productive && forall a: nat | EmptyLhs(rules, a) ::
        a in c.nullable
    requires forall a | a in body :: a.Proper? && a.xsy in c.productive
    ensures rules[r].lhs in c.productive
  {
    var rule := rules[r];
    BodyMentions(rule, c.productive, body);
    if rule.isSequence && body == [] {
      if AnyList(AsSequence(rule), body) {
        var count: nat :| ListBody(AsSequence(rule), count, body);
        ListLength(AsSequence(rule), count);
        assert false;
      }
      assert EmptyLhs(rules, rule.lhs);
    } else {
      forall a | a in rule.rhs ensures a in c.productive {
        var k :| 0 <= k < |rule.rhs| && rule.rhs[k] == a;
        assert Proper(a) in body by {
          if !rule.isSequence { assert ProperAll(rule.rhs)[k] == Proper(a); }
        }
      }
      assert Supported(rule, c.productive);
    }
  }

  lemma {:induction false} AllProductive(n: nat, rules: seq<Xrl>, terminals: set<nat>, start: nat, c: Census,
      ts: set<Token>, d: nat, body: seq<Nsy>, i: nat, j: nat)
    requires Ready(n, rules, terminals, start, c) && TokensOk(terminals, ts)
    requires DerivesAll(Kept(rules, c.productive), ts, d, body, i, j)
    ensures forall a | a in body :: a.Proper? && a.xsy in c.productive
    decreases d, |body|
  {
    hide Ready, TokensOk, Kept;
    if body != [] {
      var ps := Kept(rules, c.productive);
      var m: nat :| Derives(ps, ts, d, body[0], i, m) && DerivesAll(ps, ts, d, body[1..], m, j);
      DerivingIsProductive(n, rules, terminals, start, c, ts, d, body[0], i, m);
      AllProductive(n, rules, terminals, start, c, ts, d, body[1..], m, j);
      assert body == [body[0]] + body[1..];
    }
  }

  // ---------------------------------------------------------------- nullable means able to be empty

  /** The symbol can be empty anywhere. */
  ghost predicate Vanishes(ps: iset<Production>, ts: set<Token>, a: nat) {
    forall i: nat :: Spells(ps, ts, Proper(a), i, i)
  }

  lemma {:induction false} AllVanish(ps: iset<Production>, ts: set<Token>, rhs: seq<nat>, i: nat)
    requires forall a | a in rhs :: Vanishes(ps, ts, a)
    ensures SpellsAll(ps, ts, ProperAll(rhs), i, i)
    decreases |rhs|
  {
    if rhs == [] {
      SpellsNothing(ps, ts, i);
      assert ProperAll(rhs) == [];
    } else {
      assert forall a | a in rhs[1..] :: a in rhs;
      AllVanish(ps, ts, rhs[1..], i);
      assert Vanishes(ps, ts, rhs[0]);
      SpellsOne(ps, ts, Proper(rhs[0]), i, i);
      SpellsJoin(ps, ts, [Proper(rhs[0])], ProperAll(rhs[1..]), i, i, i);
      assert ProperAll(rhs) == [Proper(rhs[0])] + ProperAll(rhs[1..]);
    }
  }

  lemma RuleVanishes(rules: seq<Xrl>, productive: set<nat>, ts: set<Token>, r: nat)
    requires r < |rules| && WellFormed(rules[r])
    requires IsEmpty(rules[r]) || (!rules[r].isSequence && forall a | a in rules[r].rhs ::
        Vanishes(Kept(rules, productive), ts, a))
    ensures Vanishes(Kept(rules, productive), ts, rules[r].lhs)
  {
    var ps, rule := Kept(rules, productive), rules[r];
    forall i: nat ensures Spells(ps, ts, Proper(rule.lhs), i, i) {
      var body := if rule.isSequence then [] else ProperAll(rule.rhs);
      assert KeptBody(rule, productive, body);
      if rule.isSequence {
        SpellsNothing(ps, ts, i);
      } else {
        AllVanish(ps, ts, rule.rhs, i);
      }
      SpellsBy(ps, ts, Proper(rule.lhs), body, i, i);
    }
  }

  /** Every nullable symbol can be empty. */
  lemma NullableVanishes(n: nat, rules: seq<Xrl>, terminals: set<nat>, start: nat, c: Census, ts: set<Token>, a: nat)
    requires Ready(n, rules, terminals, start, c) && a in c.nullable
    ensures Vanishes(Kept(rules, c.productive), ts, a)
  {
    hide Vanishes, Kept, Mentions;
    var ps := Kept(rules, c.productive);
    NullableClosed(rules, c.nullable);
    var seed :| SeedOk(rules, seed) && LeastClosed(rules, seed, c.nullable);
    var vanishing := set b: nat | b in c.nullable && Vanishes(ps, ts, b);
    forall b | b in seed ensures b in vanishing {
      var r :| 0 <= r < |rules| && IsEmpty(rules[r]) && rules[r].lhs == b;
      RuleVanishes(rules, c.productive, ts, r);
    }
    forall r | 0 <= r < |rules| && Supported(rules[r], vanishing) ensures rules[r].lhs in vanishing {
      if rules[r].isSequence {
        ItemNotNullable(rules, r, c.nullable);
        assert false;
      }
      RuleVanishes(rules, c.productive, ts, r);
      assert Supported(rules[r], c.nullable);
    }
    assert Closed(rules, vanishing) && seed <= vanishing;
  }

  lemma ItemNotNullable(rules: seq<Xrl>, r: nat, nullable: set<nat>)
    requires r < |rules| && rules[r].isSequence && |rules[r].rhs| == 1 && NoCountedNullable(rules, nullable)
    ensures rules[r].rhs[0] in rules[r].rhs && rules[r].rhs[0] !in nullable
  {
    assert Counts(rules[r], rules[r].rhs[0]);
  }

  /** And only those. */
  lemma {:induction false} VanishingIsNullable(n: nat, rules: seq<Xrl>, terminals: set<nat>, start: nat, c: Census,
      ts: set<Token>, d: nat, a: Nsy, i: nat)
    requires Ready(n, rules, terminals, start, c)
    requires Derives(Kept(rules, c.productive), ts, d, a, i, i)
    ensures a.Proper? && a.xsy in c.nullable
    decreases d, 0
  {
    hide CensusOk, LeastClosed, KeptBody, Mentions;
    var ps := Kept(rules, c.productive);
    CensusNullable(n, rules, terminals, start, c);
    NullableClosed(rules, c.nullable);
    var body :| (a, body) in ps && DerivesAll(ps, ts, d - 1, body, i, i);
    var r :| 0 <= r < |rules| && a == Proper(rules[r].lhs) && KeptBody(rules[r], c.productive, body);
    AllNullable(n, rules, terminals, start, c, ts, d - 1, body, i);
    BodyMentions(rules[r], c.productive, body);
    if rules[r].isSequence {
      ItemNotNullable(rules, r, c.nullable);
      EmptySequenceBody(rules, r, c.productive);
    } else {
      forall b | b in rules[r].rhs ensures b in c.nullable {
        var k :| 0 <= k < |rules[r].rhs| && rules[r].rhs[k] == b;
        assert body[k] == Proper(b) && body[k] in body;
      }
      assert Supported(rules[r], c.nullable);
    }
  }

  lemma CensusNullable(n: nat, rules: seq<Xrl>, terminals: set<nat>, start: nat, c: Census)
    requires CensusOk(n, rules, terminals, start, c)
    ensures NullableOk(rules, c.nullable)
  {
  }

  lemma EmptySequenceBody(rules: seq<Xrl>, r: nat, productive: set<nat>)
    requires r < |rules| && rules[r].isSequence && KeptBody(rules[r], productive, [])
    ensures EmptyLhs(rules, rules[r].lhs)
  {
    var q := AsSequence(rules[r]);
    if count: nat :| ListBody(q, count, []) {
      ListLength(q, count);
    }
  }

  lemma {:induction false} AllNullable(n: nat, rules: seq<Xrl>, terminals: set<nat>, start: nat, c: Census,
      ts: set<Token>, d: nat, body: seq<Nsy>, i: nat)
    requires Ready(n, rules, terminals, start, c)
    requires DerivesAll(Kept(rules, c.productive), ts, d, body, i, i)
    ensures forall a | a in body :: a.Proper? && a.xsy in c.nullable
    decreases d, |body|
  {
    hide Ready, Kept;
    if body != [] {
      var ps := Kept(rules, c.productive);
      var m: nat :| Derives(ps, ts, d, body[0], i, m) && DerivesAll(ps, ts, d, body[1..], m, i);
      Order(ps, ts, d, body[0], i, m);
      AllOrder(ps, ts, d, body[1..], m, i);
      VanishingIsNullable(n, rules, terminals, start, c, ts, d, body[0], i);
      AllNullable(n, rules, terminals, start, c, ts, d, body[1..], i);
      assert body == [body[0]] + body[1..];
    }
  }

  // ---------------------------------------------------------------- walks through the rules

  lemma LeadsIsBit(n: nat, rules: seq<Xrl>, a: nat, b: nat)
    requires RulesOk(n, rules)
    ensures Leads(rules, a, b) <==> Bit(ReachBits(n, rules), a, b)
  {
    if r :| 0 <= r < |rules| && rules[r].lhs == a && Mentions(rules[r], b) {
      assert Nullables.RuleOk(n, rules[r]);
    }
  }

  lemma OneStep(n: nat, rules: seq<Xrl>, a: nat, b: nat)
    requires RulesOk(n, rules) && Leads(rules, a, b)
    ensures Reaches(ReachBits(n, rules), a, b)
  {
    LeadsIsBit(n, rules, a, b);
    assert Walk(ReachBits(n, rules), [a, b]);
  }

  lemma StepThenReach(n: nat, rules: seq<Xrl>, a: nat, b: nat, t: nat)
    requires RulesOk(n, rules) && Leads(rules, a, b) && Reaches(ReachBits(n, rules), b, t)
    ensures Reaches(ReachBits(n, rules), a, t)
  {
    var e := ReachBits(n, rules);
    LeadsIsBit(n, rules, a, b);
    var p :| Walk(e, p) && p[0] == b && p[|p| - 1] == t;
    var q := [a] + p;
    forall k, m | 0 <= k && m == k + 1 && m < |q| ensures Bit(e, q[k], q[m]) {
      assert k > 0 ==> Bit(e, p[k - 1], p[m - 1]);
    }
    assert Walk(e, q);
  }

  lemma ReachThenStep(n: nat, rules: seq<Xrl>, a: nat, b: nat, t: nat)
    requires RulesOk(n, rules) && Reaches(ReachBits(n, rules), a, b) && Leads(rules, b, t)
    ensures Reaches(ReachBits(n, rules), a, t)
  {
    var e := ReachBits(n, rules);
    LeadsIsBit(n, rules, b, t);
    var p :| Walk(e, p) && p[0] == a && p[|p| - 1] == b;
    var q := p + [t];
    forall k, m | 0 <= k && m == k + 1 && m < |q| ensures Bit(e, q[k], q[m]) {
      assert m < |p| ==> Bit(e, p[k], p[m]);
    }
    assert Walk(e, q);
  }

  /** What an accessible rule mentions is accessible. */
  lemma AccessibleStep(n: nat, rules: seq<Xrl>, terminals: set<nat>, start: nat, c: Census, r: nat, b: nat)
    requires Ready(n, rules, terminals, start, c)
    requires r < |rules| && rules[r].lhs in c.accessible && Mentions(rules[r], b)
    ensures b in c.accessible
  {
    var a := rules[r].lhs;
    assert Leads(rules, a, b);
    if a == start {
      OneStep(n, rules, start, b);
    } else {
      ReachThenStep(n, rules, start, a, b);
    }
  }

  // ---------------------------------------------------------------- nulling means nothing but empty

  /** A symbol that spans input is a terminal or reaches one. */
  lemma {:induction false} SpanNeedsTerminal(n: nat, rules: seq<Xrl>, productive: set<nat>, terminals: set<nat>,
      ts: set<Token>, d: nat, a: Nsy, i: nat, j: nat)
    requires RulesOk(n, rules) && TokensOk(terminals, ts) && i < j
    requires Derives(Kept(rules, productive), ts, d, a, i, j)
    ensures a.Proper? && (a.xsy in terminals || (IsLhs(rules, a.xsy) && ReachesTerminal(n, rules, terminals, a.xsy)))
    decreases d, 0
  {
    hide KeptBody, Mentions, ReachBits, Reaches;
    var ps := Kept(rules, productive);
    if !Reads(ts, a, i, j) {
      var body :| (a, body) in ps && DerivesAll(ps, ts, d - 1, body, i, j);
      var r :| 0 <= r < |rules| && a == Proper(rules[r].lhs) && KeptBody(rules[r], productive, body);
      var b := SomeSpanNeedsTerminal(n, rules, productive, terminals, ts, d - 1, body, i, j);
      BodyMentions(rules[r], productive, body);
      assert Leads(rules, a.xsy, b.xsy);
      if b.xsy in terminals {
        OneStep(n, rules, a.xsy, b.xsy);
      } else {
        var t :| t in terminals && Reaches(ReachBits(n, rules), b.xsy, t);
        StepThenReach(n, rules, a.xsy, b.xsy, t);
      }
    }
  }

  lemma {:induction false} SomeSpanNeedsTerminal(n: nat, rules: seq<Xrl>, productive: set<nat>, terminals: set<nat>,
      ts: set<Token>, d: nat, body: seq<Nsy>, i: nat, j: nat)
    returns (b: Nsy)
    requires RulesOk(n, rules) && TokensOk(terminals, ts) && i < j
    requires DerivesAll(Kept(rules, productive), ts, d, body, i, j)
    ensures b in body && b.Proper? && (b.xsy in terminals || ReachesTerminal(n, rules, terminals, b.xsy))
    decreases d, |body|
  {
    hide Kept, ReachesTerminal, TokensOk, RulesOk;
    var ps := Kept(rules, productive);
    var m: nat :| Derives(ps, ts, d, body[0], i, m) && DerivesAll(ps, ts, d, body[1..], m, j);
    Order(ps, ts, d, body[0], i, m);
    if i < m {
      SpanNeedsTerminal(n, rules, productive, terminals, ts, d, body[0], i, m);
      b := body[0];
    } else {
      b := SomeSpanNeedsTerminal(n, rules, productive, terminals, ts, d, body[1..], m, j);
      assert body == [body[0]] + body[1..];
    }
  }

  /** A nulling symbol spans no input. */
  lemma NullingSpansNothing(n: nat, rules: seq<Xrl>, terminals: set<nat>, start: nat, c: Census, ts: set<Token>,
      d: nat, a: nat, i: nat, j: nat)
    requires Ready(n, rules, terminals, start, c) && TokensOk(terminals, ts) && a in c.nulling
    requires Derives(Kept(rules, c.productive), ts, d, Proper(a), i, j)
    ensures i == j
  {
    hide Kept;
    Order(Kept(rules, c.productive), ts, d, Proper(a), i, j);
    if i < j {
      SpanNeedsTerminal(n, rules, c.productive, terminals, ts, d, Proper(a), i, j);
    }
  }

  /** A productive symbol is a terminal, reaches one, or is nullable. */
  lemma ProductiveSplits(n: nat, rules: seq<Xrl>, terminals: set<nat>, start: nat, c: Census, a: nat)
    requires Ready(n, rules, terminals, start, c) && a in c.productive
    ensures a in terminals || a in c.nullable || (IsLhs(rules, a) && ReachesTerminal(n, rules, terminals, a))
  {
    hide ReachesTerminal, Reaches, ReachBits;
    NullableClosed(rules, c.nullable);
    var s := set b: nat | b in c.productive && (b in terminals || b in c.nullable
        || (IsLhs(rules, b) && ReachesTerminal(n, rules, terminals, b)));
    ProductiveClosed(n, rules, terminals, start, c);
    forall r | 0 <= r < |rules| && Supported(rules[r], s) ensures rules[r].lhs in s {
      assert Supported(rules[r], c.productive);
      assert IsLhs(rules, rules[r].lhs);
      if b :| b in rules[r].rhs && b !in c.nullable {
        assert Leads(rules, rules[r].lhs, b);
        TerminalAbove(n, rules, terminals, rules[r].lhs, b);
      } else {
        if rules[r].isSequence {
          ItemNotNullable(rules, r, c.nullable);
          assert false;
        }
        assert Supported(rules[r], c.nullable);
      }
    }
    assert Closed(rules, s) && c.nullable + terminals <= s;
  }

  lemma TerminalAbove(n: nat, rules: seq<Xrl>, terminals: set<nat>, a: nat, b: nat)
    requires RulesOk(n, rules) && Leads(rules, a, b) && (b in terminals || ReachesTerminal(n, rules, terminals, b))
    ensures ReachesTerminal(n, rules, terminals, a)
  {
    if b in terminals {
      OneStep(n, rules, a, b);
    } else {
      var t :| t in terminals && Reaches(ReachBits(n, rules), b, t);
      StepThenReach(n, rules, a, b, t);
    }
  }

  /** So a productive nulling symbol is nullable. */
  lemma NullingIsNullable(n: nat, rules: seq<Xrl>, terminals: set<nat>, start: nat, c: Census, a: nat)
    requires Ready(n, rules, terminals, start, c) && a in c.nulling && a in c.productive
    ensures a in c.nullable
  {
    ProductiveSplits(n, rules, terminals, start, c, a);
  }

  // ---------------------------------------------------------------- no rule that matters is dropped

  /** An accessible rule that spans input is used. */
  lemma SpanningIsUsed(n: nat, rules: seq<Xrl>, terminals: set<nat>, start: nat, c: Census, ts: set<Token>, r: nat,
      body: seq<Nsy>, d: nat, i: nat, j: nat)
    requires Ready(n, rules, terminals, start, c) && TokensOk(terminals, ts)
    requires r < |rules| && rules[r].lhs in c.accessible && KeptBody(rules[r], c.productive, body)
    requires DerivesAll(Kept(rules, c.productive), ts, d, body, i, j) && i < j
    ensures Used(c, rules[r])
  {
    var rule := rules[r];
    BodyMentions(rule, c.productive, body);
    hide KeptBody, Kept, Mentions, Counts;
    AllProductive(n, rules, terminals, start, c, ts, d, body, i, j);
    assert forall a | a in rule.rhs :: a in c.productive by {
      forall a | a in rule.rhs ensures a in c.productive {
        var k :| 0 <= k < |rule.rhs| && rule.rhs[k] == a;
        assert Proper(a) in body by {
          if !rule.isSequence { assert body[k] == Proper(a); }
        }
      }
    }
    if rule.isSequence {
      ItemNotNullable(rules, r, c.nullable);
      var item := rule.rhs[0];
      if item in c.nulling {
        NullingIsNullable(n, rules, terminals, start, c, item);
        assert false;
      }
    } else {
      var b := SomeSpanNeedsTerminal(n, rules, c.productive, terminals, ts, d, body, i, j);
      var k :| 0 <= k < |body| && body[k] == b;
      assert rule.rhs[k] == b.xsy;
      assert b.xsy !in c.nulling;
    }
  }

  // ---------------------------------------------------------------- taking the census

  datatype CensusError =
    | NoRules | NoStartSymbol | InvalidStartSymbol | StartNotLhs | CountedNullable | UnproductiveStart | NullingTerminal

  datatype CensusResult = Failed(error: CensusError) | Taken(census: Census, terminals: set<nat>)

  /** Symbols are terminals unless they are left sides, or as the caller has fixed it. */
  ghost predicate TerminalsOk(n: nat, rules: seq<Xrl>, locked: map<nat, bool>, terminals: set<nat>) {
    forall a: nat :: a in terminals <==> a < n && if a in locked then locked[a] else !IsLhs(rules, a)
  }

  /** The left sides, and those the rules make empty outright. */
  method MarkLhs(n: nat, rules: seq<Xrl>) returns (lhs: array<bool>, empty: array<bool>)
    requires RulesOk(n, rules)
    ensures fresh(lhs) && fresh(empty) && lhs != empty && lhs.Length == empty.Length == n
    ensures forall a: nat | a < n :: lhs[a] <==> IsLhs(rules, a)
    ensures SeedOk(rules, Nullables.Bits(empty))
  {
    lhs, empty := new bool[n](i => false), new bool[n](i => false);
    for r := 0 to |rules|
      invariant forall a: nat | a < n :: lhs[a] <==> exists q :: 0 <= q < r && rules[q].lhs == a
      invariant forall a: nat | a < n :: empty[a] <==> exists q :: 0 <= q < r && IsEmpty(rules[q]) && rules[q].lhs == a
    {
      assert Nullables.RuleOk(n, rules[r]);
      lhs[rules[r].lhs] := true;
      if rules[r].isSequence && rules[r].minimum <= 0 {
        empty[rules[r].lhs] := true;
      }
      if |rules[r].rhs| <= 0 {
        empty[rules[r].lhs] := true;
      }
    }
    forall a: nat ensures a in Nullables.Bits(empty) <==> EmptyLhs(rules, a) {
      if r :| 0 <= r < |rules| && IsEmpty(rules[r]) && rules[r].lhs == a {
        assert Nullables.RuleOk(n, rules[r]);
      }
    }
  }

  /** Each symbol with each rule that mentions it on the right, in order. */
  method SymbolRulePairs(n: nat, rules: seq<Xrl>) returns (pairs: seq<Pair>)
    ensures PairsSorted(pairs) && PairsOf(n, rules, pairs) && forall k | 0 <= k < |pairs| :: pairs[k].symbol < n
  {
    pairs := [];
    for a := 0 to n
      invariant PairsSorted(pairs) && forall k | 0 <= k < |pairs| :: pairs[k].symbol < a
      invariant forall b: nat, r: nat :: Pair(b, r) in pairs <==> r < |rules| && b < a && Mentions(rules[r], b)
    {
      for r := 0 to |rules|
        invariant PairsSorted(pairs)
        invariant forall k | 0 <= k < |pairs| :: pairs[k].symbol < a || (pairs[k].symbol == a && pairs[k].rule < r)
        invariant forall b: nat, q: nat :: Pair(b, q) in pairs <==>
            q < |rules| && Mentions(rules[q], b) && (b < a || (b == a && q < r))
      {
        if Mentions(rules[r], a) {
          pairs := pairs + [Pair(a, r)];
        }
      }
    }
  }

  /** Bits from each left side to the symbols on the right. */
  method ReachMatrix(n: nat, rules: seq<Xrl>) returns (m: BitMatrix)
    requires RulesOk(n, rules)
    ensures fresh(m) && fresh(m.data) && Holds(m, ReachBits(n, rules))
  {
    m := new BitMatrix(n, n);
    for r := 0 to |rules|
      invariant m.Valid() && m.rows == m.columns == n && fresh(m) && fresh(m.data)
      invariant forall i: nat, j: nat | i < n && j < n :: m.Has(i, j) <==>
          exists q :: 0 <= q < r && rules[q].lhs == i && Mentions(rules[q], j)
    {
      assert Nullables.RuleOk(n, rules[r]);
      var rule := rules[r];
      for ix := 0 to |rule.rhs|
        invariant m.Valid() && fresh(m.data)
        invariant forall i: nat, j: nat | i < n && j < n ::
          m.Has(i, j) <==>
              (exists q :: 0 <= q < r && rules[q].lhs == i && Mentions(rules[q], j))
              || (rule.lhs == i && j in rule.rhs[..ix])
      {
        assert rule.rhs[ix] in rule.rhs;
        m.Set(rule.lhs, rule.rhs[ix]);
        assert rule.rhs[..ix + 1] == rule.rhs[..ix] + [rule.rhs[ix]];
      }
      assert rule.rhs[..|rule.rhs|] == rule.rhs;
      if rule.isSequence && rule.separator >= 0 {
        m.Set(rule.lhs, rule.separator);
      }
    }
  }

  /** Some sequence has a nullable item or separator. */
  method AnyCountedNullable(n: nat, rules: seq<Xrl>, nullable: array<bool>) returns (found: bool)
    requires RulesOk(n, rules) && nullable.Length == n
    ensures found == !NoCountedNullable(rules, Nullables.Bits(nullable))
  {
    for r := 0 to |rules|
      invariant forall q, a: nat | 0 <= q < r && Counts(rules[q], a) :: a !in Nullables.Bits(nullable)
    {
      var rule := rules[r];
      assert Nullables.RuleOk(n, rule);
      if rule.isSequence {
        assert rule.rhs[0] in rule.rhs && Counts(rule, rule.rhs[0]);
        if nullable[rule.rhs[0]] {
          assert rule.rhs[0] in Nullables.Bits(nullable);
          return true;
        }
        if rule.separator >= 0 && nullable[rule.separator] {
          ghost var separator: nat := rule.separator;
          assert Counts(rule, separator) && separator in Nullables.Bits(nullable);
          return true;
        }
      }
    }
    return false;
  }

  method AnyTerminal(m: BitMatrix, a: nat, terminals: set<nat>) returns (found: bool)
    requires m.Valid() && a < m.rows && forall t | t in terminals :: t < m.columns
    ensures found <==> exists t :: t in terminals && m.Has(a, t)
  {
    for t := 0 to m.columns
      invariant forall u: nat :: u < t && u in terminals ==> !m.Has(a, u)
    {
      var on := m.Test(a, t);
      if on && t in terminals {
        return true;
      }
    }
    return false;
  }

  /** The left sides from which no terminal is reached. */
  method NullingSymbols(n: nat, rules: seq<Xrl>, lhs: array<bool>, m: BitMatrix, terminals: set<nat>)
    returns (nulling: set<nat>)
    requires lhs.Length == n && (forall t | t in terminals :: t < n) && RulesOk(n, rules)
    requires forall a: nat | a < n :: lhs[a] <==> IsLhs(rules, a)
    requires ShowsReach(m, ReachBits(n, rules))
    ensures forall a: nat :: a in nulling <==> IsLhs(rules, a) && !ReachesTerminal(n, rules, terminals, a)
  {
    hide ReachBits, Reaches;
    nulling := {};
    for a := 0 to n
      invariant forall b: nat :: b in nulling <==> b < a && IsLhs(rules, b) && !ReachesTerminal(n, rules, terminals, b)
    {
      if lhs[a] {
        var found := AnyTerminal(m, a, terminals);
        if !found {
          nulling := nulling + {a};
        }
      }
    }
    forall a: nat | IsLhs(rules, a) ensures a < n {
      var r :| 0 <= r < |rules| && rules[r].lhs == a;
      assert Nullables.RuleOk(n, rules[r]);
    }
  }

  method FindTerminals(n: nat, rules: seq<Xrl>, lhs: array<bool>, locked: map<nat, bool>) returns (terminals: set<nat>)
    requires lhs.Length == n && forall a: nat | a < n :: lhs[a] <==> IsLhs(rules, a)
    ensures TerminalsOk(n, rules, locked, terminals)
  {
    terminals := {};
    for a := 0 to n
      invariant forall b: nat :: b in terminals <==> b < a && if b in locked then locked[b] else !IsLhs(rules, b)
    {
      if a in locked {
        if locked[a] {
          terminals := terminals + {a};
        }
      } else if !lhs[a] {
        terminals := terminals + {a};
      }
    }
  }

  /** The productive symbols: terminals and nullable symbols, closed under the rules. */
  method Productive(n: nat, rules: seq<Xrl>, nullable: array<bool>, terminals: set<nat>, starts: seq<nat>,
      data: seq<nat>, ghost pairs: seq<Pair>)
    returns (productive: array<bool>)
    requires RulesOk(n, rules) && PairsOf(n, rules, pairs) && IndexOf(n, pairs, starts, data)
    requires nullable.Length == n && forall t | t in terminals :: t < n
    ensures fresh(productive) && productive.Length == n
    ensures LeastClosed(rules, Nullables.Bits(nullable) + terminals, Nullables.Bits(productive))
  {
    hide RulesOk, PairsOf, IndexOf, LeastClosed;
    productive := new bool[n];
    for a := 0 to n
      invariant forall b | 0 <= b < a :: productive[b] <==> nullable[b] || b in terminals
    {
      productive[a] := nullable[a] || a in terminals;
    }
    assert Nullables.Bits(productive) == Nullables.Bits(nullable) + terminals;
    RhsClosure(rules, productive, starts, data, pairs);
  }

  /** The grammar is in order so far. */
  predicate StartFine(n: nat, rules: seq<Xrl>, start: int) {
    rules != [] && 0 <= start < n && exists r :: 0 <= r < |rules| && rules[r].lhs == start
  }

  /** What the result of the census says; when several errors are there the first one is reported. */
  ghost predicate ResultOk(n: nat, rules: seq<Xrl>, locked: map<nat, bool>, start: int, result: CensusResult) {
    match result
    case Failed(NoRules) => rules == []
    case Failed(NoStartSymbol) => rules != [] && start < 0
    case Failed(InvalidStartSymbol) => rules != [] && start >= n
    case Failed(StartNotLhs) => rules != [] && 0 <= start < n && !IsLhs(rules, start)
    case Failed(CountedNullable) =>
      StartFine(n, rules, start) && exists nullable ::
          NullableOk(rules, nullable) && !NoCountedNullable(rules, nullable)
    case Failed(UnproductiveStart) =>
      StartFine(n, rules, start) && exists c, terminals ::
        TerminalsOk(n, rules, locked, terminals) && CensusOk(n, rules, terminals, start, c)
        && NoCountedNullable(rules, c.nullable) && start !in c.productive
    case Failed(NullingTerminal) =>
      StartFine(n, rules, start) && exists c, terminals ::
        TerminalsOk(n, rules, locked, terminals) && CensusOk(n, rules, terminals, start, c)
        && NoCountedNullable(rules, c.nullable) && start in c.productive && !(c.nulling !! terminals)
    case Taken(c, terminals) =>
      StartFine(n, rules, start) && TerminalsOk(n, rules, locked, terminals) && Ready(n, rules, terminals, start, c)
  }

  /** The bits of a vector or of a row, copied to the symbols. */
  method SetOf(bv: array<bool>) returns (s: set<nat>)
    ensures s == Nullables.Bits(bv)
  {
    s := {};
    for a := 0 to bv.Length
      invariant forall b: nat :: b in s <==> b < a && bv[b]
    {
      if bv[a] {
        s := s + {a};
      }
    }
  }

  method Accessible(n: nat, rules: seq<Xrl>, m: BitMatrix, start: nat) returns (accessible: set<nat>)
    requires RulesOk(n, rules) && start < n
    requires ShowsReach(m, ReachBits(n, rules))
    ensures forall a: nat :: a in accessible <==> a == start || Reaches(ReachBits(n, rules), start, a)
  {
    hide ReachBits, Reaches, RulesOk;
    accessible := {};
    for a := 0 to n
      invariant forall b: nat :: b in accessible <==> b < a && Reaches(ReachBits(n, rules), start, b)
    {
      var on := m.Test(start, a);
      if on {
        accessible := accessible + {a};
      }
    }
    accessible := accessible + {start};
    forall a: nat ensures a in accessible <==> a == start || Reaches(ReachBits(n, rules), start, a) {
      ReachedBelow(n, rules, start, a);
    }
  }

  /** Everything about the symbols, unless a sequence counts a nullable one. */
  method CountSymbols(n: nat, rules: seq<Xrl>, terminals: set<nat>, start: nat, lhs: array<bool>, empty: array<bool>)
    returns (counted: bool, c: Census)
    requires RulesOk(n, rules) && (forall t | t in terminals :: t < n) && start < n
    requires lhs != empty && lhs.Length == empty.Length == n && SeedOk(rules, Nullables.Bits(empty))
    requires forall a: nat | a < n :: lhs[a] <==> IsLhs(rules, a)
    modifies empty
    ensures NullableOk(rules, c.nullable) && counted == !NoCountedNullable(rules, c.nullable)
    ensures !counted ==> CensusOk(n, rules, terminals, start, c)
  {
    hide RulesOk, CensusOk, NullableOk, LeastClosed, SeedOk, PairsOf, IndexOf, ReachesTerminal, ReachBits, Reaches,
      NoCountedNullable, PairsSorted, Nullables.Bits, Holds, ShowsReach;
    var pairs := SymbolRulePairs(n, rules);
    var starts, data := BuildIndex(n, pairs);
    var m := ReachMatrix(n, rules);
    TransitiveClosure(m, ReachBits(n, rules));
    ghost var seed := Nullables.Bits(empty);
    RhsClosure(rules, empty, starts, data, pairs);
    NullableFound(rules, seed, Nullables.Bits(empty));
    var nullable := SetOf(empty);
    counted := AnyCountedNullable(n, rules, empty);
    if counted {
      c := Census(nullable, {}, {}, {});
      return;
    }
    var productive := Productive(n, rules, empty, terminals, starts, data, pairs);
    var producing := SetOf(productive);
    var accessible := Accessible(n, rules, m, start);
    var nulling := NullingSymbols(n, rules, lhs, m, terminals);
    c := Census(nullable, producing, accessible, nulling);
    CensusMade(n, rules, terminals, start, c);
  }

  method TakeCensus(n: nat, rules: seq<Xrl>, locked: map<nat, bool>, start: int) returns (result: CensusResult)
    requires RulesOk(n, rules)
    ensures ResultOk(n, rules, locked, start, result)
  {
    hide RulesOk, CensusOk, NullableOk, SeedOk, TerminalsOk, NoCountedNullable, Nullables.Bits;
    if |rules| <= 0 {
      return Failed(NoRules);
    }
    if start < 0 {
      return Failed(NoStartSymbol);
    }
    if start >= n {
      return Failed(InvalidStartSymbol);
    }
    var lhs, empty := MarkLhs(n, rules);
    if !lhs[start] {
      return Failed(StartNotLhs);
    }
    var terminals := FindTerminals(n, rules, lhs, locked);
    TerminalsBelow(n, rules, locked, terminals);
    var counted, c := CountSymbols(n, rules, terminals, start, lhs, empty);
    if counted {
      return Failed(CountedNullable);
    }
    if start !in c.productive {
      return Failed(UnproductiveStart);
    }
    if exists a :: a in c.nulling && a in terminals {
      return Failed(NullingTerminal);
    }
    assert c.nulling !! terminals;
    return Taken(c, terminals);
  }

  lemma CensusMade(n: nat, rules: seq<Xrl>, terminals: set<nat>, start: nat, c: Census)
    requires NullableOk(rules, c.nullable) && LeastClosed(rules, c.nullable + terminals, c.productive)
    requires forall a: nat :: a in c.accessible <==> a == start || Reaches(ReachBits(n, rules), start, a)
    requires forall a: nat :: a in c.nulling <==> IsLhs(rules, a) && !ReachesTerminal(n, rules, terminals, a)
    ensures CensusOk(n, rules, terminals, start, c)
  {
  }

  lemma NullableFound(rules: seq<Xrl>, seed: set<nat>, nullable: set<nat>)
    requires SeedOk(rules, seed) && LeastClosed(rules, seed, nullable)
    ensures NullableOk(rules, nullable)
  {
  }

  lemma TerminalsBelow(n: nat, rules: seq<Xrl>, locked: map<nat, bool>, terminals: set<nat>)
    requires TerminalsOk(n, rules, locked, terminals)
    ensures forall t | t in terminals :: t < n
  {
  }

  lemma ReachedBelow(n: nat, rules: seq<Xrl>, a: nat, b: nat)
    requires RulesOk(n, rules)
    ensures Reaches(ReachBits(n, rules), a, b) ==> a < n && b < n
  {
    var e := ReachBits(n, rules);
    if p :| Walk(e, p) && p[0] == a && p[|p| - 1] == b {
      assert Bit(e, p[0], p[1]);
      assert Bit(e, p[|p| - 2], p[|p| - 1]);
    }
  }
}
