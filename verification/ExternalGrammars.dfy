/** External grammars: what their rules stand for, and what the census of symbols says about them. */
module ExternalGrammars {
  import opened Chaf
  import opened Closures
  import opened Derivations
  import opened Languages
  import opened Nullables
  import opened Sequences

  // ---------------------------------------------------------------- the language of a grammar

  function ProperAll(s: seq<nat>): (r: seq<Nsy>)
    ensures |r| == |s| && forall k | 0 <= k < |s| :: r[k] == Proper(s[k])
  {
    seq(|s|, k requires 0 <= k < |s| => Proper(s[k]))
  }

  function AsSequence(rule: Xrl): SequenceRule
    requires rule.isSequence && |rule.rhs| == 1
  {
    var separated := rule.separator >= 0;
    SequenceRule(rule.lhs, rule.rhs[0], separated, if separated then rule.separator else 0, rule.proper, rule.minimum)
  }

  /** A separated list of `count` items, perhaps with one more separator behind. */
  ghost predicate ListBody(q: SequenceRule, count: nat, body: seq<Nsy>) {
    count > 0 && (body == Items(q, count) || (q.hasSeparator && !q.proper
        && body == Items(q, count) + [Proper(q.separator)]))
  }

  ghost predicate AnyList(q: SequenceRule, body: seq<Nsy>) {
    exists count: nat :: ListBody(q, count, body)
  }

  ghost predicate EnoughList(q: SequenceRule, body: seq<Nsy>) {
    exists count: nat :: q.minimum <= count && ListBody(q, count, body)
  }

  predicate WellFormed(rule: Xrl) {
    rule.isSequence ==> |rule.rhs| == 1
  }

  /** The rule as documented: its left side may be `body`. */
  ghost predicate Body(rule: Xrl, body: seq<Nsy>) {
    && WellFormed(rule)
    && if rule.isSequence then (rule.minimum <= 0 && body == []) || EnoughList(AsSequence(rule), body)
       else body == ProperAll(rule.rhs)
  }

  /** The rule as the rewrite takes it: the minimum of a sequence only matters when it is zero or less, and a sequence
      whose separator can never be read has no items at all. */
  ghost predicate KeptBody(rule: Xrl, productive: set<nat>, body: seq<Nsy>) {
    && WellFormed(rule)
    && if rule.isSequence
       then (rule.minimum <= 0 && body == [])
            || (AnyList(AsSequence(rule), body) && (rule.separator >= 0 ==> rule.separator in productive))
       else body == ProperAll(rule.rhs)
  }

  ghost function Documented(rules: seq<Xrl>): iset<Production> {
    iset p: Production | exists r :: 0 <= r < |rules| && p.0 == Proper(rules[r].lhs) && Body(rules[r], p.1)
  }

  ghost function Kept(rules: seq<Xrl>, productive: set<nat>): iset<Production> {
    iset p: Production | exists r ::
        0 <= r < |rules| && p.0 == Proper(rules[r].lhs) && KeptBody(rules[r], productive, p.1)
  }

  // ---------------------------------------------------------------- what a documented sequence looks like

  /** Items, with a separator at every odd place if the sequence has one. */
  ghost predicate Alternates(rule: Xrl, body: seq<Nsy>)
    requires |rule.rhs| == 1
  {
    forall k | 0 <= k < |body| ::
      if rule.separator >= 0 && k % 2 == 1 then body[k] == Proper(rule.separator) else body[k] == Proper(rule.rhs[0])
  }

  lemma {:induction false} ItemsAlternate(rule: Xrl, count: nat)
    requires rule.isSequence && |rule.rhs| == 1 && count > 0
    ensures var s := Items(AsSequence(rule), count);
            |s| == (if rule.separator >= 0 then 2 * count - 1 else count) && Alternates(rule, s)
    decreases count
  {
    if count > 1 {
      ItemsAlternate(rule, count - 1);
    }
  }

  /** Two alternating lists of one length are the same. */
  lemma AlternateSame(rule: Xrl, x: seq<Nsy>, y: seq<Nsy>)
    requires |rule.rhs| == 1 && Alternates(rule, x) && Alternates(rule, y) && |x| == |y|
    ensures x == y
  {
  }

  /** The documented bodies of a sequence: nothing if the minimum allows that, and otherwise at least that many items
      with separators in between, which may end in a separator only where separation is not proper. */
  lemma SequenceBodies(rule: Xrl, body: seq<Nsy>)
    requires rule.isSequence && |rule.rhs| == 1
    ensures Body(rule, body) <==>
            || (body == [] && rule.minimum <= 0)
            || (body != [] && Alternates(rule, body)
                && rule.minimum <= (if rule.separator >= 0 then (|body| + 1) / 2 else |body|)
                && (rule.separator >= 0 && |body| % 2 == 0 ==> !rule.proper))
  {
    var q := AsSequence(rule);
    if count: nat :| q.minimum <= count && ListBody(q, count, body) {
      ItemsAlternate(rule, count);
    }
    if body != [] && Alternates(rule, body) {
      var count: nat := if rule.separator >= 0 then (|body| + 1) / 2 else |body|;
      ItemsAlternate(rule, count);
      var whole := Items(q, count);
      if |whole| == |body| {
        AlternateSame(rule, whole, body);
        assert count >= q.minimum ==> ListBody(q, count, body);
      } else {
        assert rule.separator >= 0 && |body| == 2 * count;
        assert Alternates(rule, whole + [Proper(rule.separator)]);
        AlternateSame(rule, whole + [Proper(rule.separator)], body);
        assert count >= q.minimum && !rule.proper ==> ListBody(q, count, body);
      }
    }
  }

  // ---------------------------------------------------------------- where the rewrite and the documentation part

  /** The rewrite takes a rule as documented. */
  predicate TakenLiterally(rule: Xrl, productive: set<nat>) {
    rule.isSequence ==> rule.minimum <= 1 && (rule.separator >= 0 ==> rule.separator in productive)
  }

  lemma ListsDiffer(q: SequenceRule, count: nat, other: nat)
    requires 0 < count && 0 < other && ListBody(q, other, Items(q, count))
    ensures count == other
  {
    ListLength(q, count);
    ListLength(q, other);
  }

  lemma {:induction false} ListLength(q: SequenceRule, count: nat)
    requires count > 0
    ensures |Items(q, count)| == if q.hasSeparator then 2 * count - 1 else count
    ensures Items(q, count)[0] == Proper(q.item)
    decreases count
  {
    if count > 1 {
      ListLength(q, count - 1);
    }
  }

  /** Sequence by sequence, the rewrite and the documentation agree exactly when the minimum is at most one and
      the separator, if there is one, can be read. */
  lemma SameBodies(rule: Xrl, productive: set<nat>)
    requires WellFormed(rule)
    ensures (forall body :: Body(rule, body) <==> KeptBody(rule, productive, body)) <==>
        TakenLiterally(rule, productive)
  {
    if rule.isSequence {
      var q := AsSequence(rule);
      if TakenLiterally(rule, productive) {
        forall body ensures EnoughList(q, body) <==> AnyList(q, body) {
          if count: nat :| ListBody(q, count, body) {
            assert q.minimum <= count;
          }
        }
      } else if rule.separator >= 0 && rule.separator !in productive {
        var count: nat := if q.minimum <= 1 then 1 else q.minimum;
        var body := Items(q, count);
        ListLength(q, count);
        assert ListBody(q, count, body);
        assert Body(rule, body) && !KeptBody(rule, productive, body);
      } else {
        var body := Items(q, 1);
        assert ListBody(q, 1, body);
        ListLength(q, 1);
        if EnoughList(q, body) {
          var count: nat :| q.minimum <= count && ListBody(q, count, body);
          ListsDiffer(q, 1, count);
        }
        assert KeptBody(rule, productive, body) && !Body(rule, body);
      }
    }
  }

  ghost predicate AllLiteral(rules: seq<Xrl>, productive: set<nat>) {
    forall r | 0 <= r < |rules| :: WellFormed(rules[r]) && TakenLiterally(rules[r], productive)
  }

  /** So for a grammar without such sequences nothing is lost and nothing added. */
  lemma SameProductions(rules: seq<Xrl>, productive: set<nat>)
    requires AllLiteral(rules, productive)
    ensures Documented(rules) == Kept(rules, productive)
  {
    forall r | 0 <= r < |rules| ensures forall body :: Body(rules[r], body) <==> KeptBody(rules[r], productive, body) {
      SameBodies(rules[r], productive);
    }
  }
}
