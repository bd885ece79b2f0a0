/** Sequence rules rewritten as left-recursive internal rules. */
module Sequences {
  import opened Chaf

  /** A sequence of `item`s, with or without a separator. Proper separation forbids a trailing separator. */
  datatype SequenceRule = SequenceRule(lhs: nat, item: nat, hasSeparator: bool, separator: nat, proper: bool,
      minimum: int)

  function Top(q: SequenceRule, v: nat): Irl {
    Irl(Proper(q.lhs), [Virtual(v)], 3, 0, 0)
  }

  function Trailing(q: SequenceRule, v: nat): Irl {
    Irl(Proper(q.lhs), [Virtual(v), Proper(q.separator)], 3, 0, 1)
  }

  function Single(q: SequenceRule, v: nat): Irl {
    Irl(Virtual(v), [Proper(q.item)], 3, 0, 1)
  }

  function More(q: SequenceRule, v: nat): Irl {
    Irl(Virtual(v), [Virtual(v)] + Between(q), 3, 0, if q.hasSeparator then 2 else 1)
  }

  /** What one more item adds. */
  function Between(q: SequenceRule): seq<Nsy> {
    if q.hasSeparator then [Proper(q.separator), Proper(q.item)] else [Proper(q.item)]
  }

  /** The internal rules of a sequence, whose list proper is the virtual symbol `v`. */
  function SequenceIrls(q: SequenceRule, v: nat): seq<Irl> {
    [Top(q, v)] + (if q.hasSeparator && !q.proper then [Trailing(q, v)] else []) + [Single(q, v), More(q, v)]
  }

  /** At most `depth` rules deep, `lhs` spells `out` once the virtual symbol in front has been expanded away. */
  ghost predicate Unrolls(irls: seq<Irl>, lhs: Nsy, depth: nat, out: seq<Nsy>)
    decreases depth, 1
  {
    depth > 0 && exists irl :: irl in irls && irl.lhs == lhs && UnrollsBy(irls, irl, depth, out)
  }

  ghost predicate UnrollsBy(irls: seq<Irl>, irl: Irl, depth: nat, out: seq<Nsy>)
    requires depth > 0
    decreases depth, 0
  {
    if irl.rhs != [] && irl.rhs[0].Virtual?
    then exists n: nat :: n <= |out| && out[n..] == irl.rhs[1..] && Unrolls(irls, irl.rhs[0], depth - 1, out[..n])
    else out == irl.rhs
  }

  /** `count` items, separated. */
  ghost function Items(q: SequenceRule, count: nat): seq<Nsy>
    requires count > 0
  {
    if count == 1 then [Proper(q.item)] else Items(q, count - 1) + Between(q)
  }

  ghost predicate IsItems(q: SequenceRule, most: nat, out: seq<Nsy>) {
    exists count: nat :: 0 < count <= most && out == Items(q, count)
  }

  lemma RulesOfList(q: SequenceRule, v: nat, irl: Irl)
    ensures irl in SequenceIrls(q, v) && irl.lhs == Virtual(v) <==> irl == Single(q, v) || irl == More(q, v)
    ensures irl in SequenceIrls(q, v) && irl.lhs == Proper(q.lhs) <==>
            irl == Top(q, v) || (q.hasSeparator && !q.proper && irl == Trailing(q, v))
  {
    var irls := SequenceIrls(q, v);
    assert irls[0] == Top(q, v) && irls[|irls| - 2] == Single(q, v) && irls[|irls| - 1] == More(q, v);
    assert q.hasSeparator && !q.proper ==> irls[1] == Trailing(q, v);
  }

  lemma UnrollsStep(irls: seq<Irl>, irl: Irl, depth: nat, front: seq<Nsy>, back: seq<Nsy>)
    requires irl in irls && irl.rhs != [] && irl.rhs[0].Virtual? && back == irl.rhs[1..]
    requires Unrolls(irls, irl.rhs[0], depth, front)
    ensures Unrolls(irls, irl.lhs, depth + 1, front + back)
  {
    var out := front + back;
    assert out[|front|..] == back && out[..|front|] == front;
    assert UnrollsBy(irls, irl, depth + 1, out);
  }

  lemma UnrollsSplit(irls: seq<Irl>, irl: Irl, depth: nat, out: seq<Nsy>) returns (front: seq<Nsy>)
    requires depth > 0 && irl.rhs != [] && irl.rhs[0].Virtual? && UnrollsBy(irls, irl, depth, out)
    ensures out == front + irl.rhs[1..] && Unrolls(irls, irl.rhs[0], depth - 1, front)
  {
    var n: nat :| n <= |out| && out[n..] == irl.rhs[1..] && Unrolls(irls, irl.rhs[0], depth - 1, out[..n]);
    front := out[..n];
    assert out == out[..n] + out[n..];
  }

  lemma {:induction false} ListSound(q: SequenceRule, v: nat, depth: nat, out: seq<Nsy>)
    requires Unrolls(SequenceIrls(q, v), Virtual(v), depth, out)
    ensures IsItems(q, depth, out)
    decreases depth
  {
    hide SequenceIrls;
    var irls := SequenceIrls(q, v);
    var irl :| irl in irls && irl.lhs == Virtual(v) && UnrollsBy(irls, irl, depth, out);
    RulesOfList(q, v, irl);
    if irl == Single(q, v) {
      assert out == Items(q, 1);
    } else {
      var front := UnrollsSplit(irls, irl, depth, out);
      ListSound(q, v, depth - 1, front);
      var count: nat :| 0 < count <= depth - 1 && front == Items(q, count);
      assert out == Items(q, count + 1);
    }
  }

  lemma {:induction false} ListComplete(q: SequenceRule, v: nat, depth: nat, count: nat)
    requires 0 < count <= depth
    ensures Unrolls(SequenceIrls(q, v), Virtual(v), depth, Items(q, count))
    decreases count
  {
    hide SequenceIrls;
    var irls := SequenceIrls(q, v);
    RulesOfList(q, v, Single(q, v));
    RulesOfList(q, v, More(q, v));
    if count == 1 {
      assert UnrollsBy(irls, Single(q, v), depth, Items(q, 1));
    } else {
      ListComplete(q, v, depth - 1, count - 1);
      UnrollsStep(irls, More(q, v), depth - 1, Items(q, count - 1), Between(q));
    }
  }

  /** The list symbol spells exactly the separated lists of one or more items. */
  lemma ListIsItems(q: SequenceRule, v: nat, depth: nat, out: seq<Nsy>)
    ensures Unrolls(SequenceIrls(q, v), Virtual(v), depth, out) <==> IsItems(q, depth, out)
  {
    hide SequenceIrls, Unrolls;
    if Unrolls(SequenceIrls(q, v), Virtual(v), depth, out) {
      ListSound(q, v, depth, out);
    }
    if IsItems(q, depth, out) {
      var count: nat :| 0 < count <= depth && out == Items(q, count);
      ListComplete(q, v, depth, count);
    }
  }

  /** With one more separator behind, which proper separation forbids. */
  ghost predicate IsTrailingItems(q: SequenceRule, most: nat, out: seq<Nsy>) {
    && q.hasSeparator && !q.proper
    && exists front :: IsItems(q, most, front) && out == front + [Proper(q.separator)]
  }

  /** The sequence symbol spells the separated lists, and those with one more separator behind unless
      separation is proper. */
  lemma SequenceIsItems(q: SequenceRule, v: nat, depth: nat, out: seq<Nsy>)
    ensures Unrolls(SequenceIrls(q, v), Proper(q.lhs), depth + 1, out) <==>
            IsItems(q, depth, out) || IsTrailingItems(q, depth, out)
  {
    hide SequenceIrls, IsItems;
    var irls := SequenceIrls(q, v);
    RulesOfList(q, v, Top(q, v));
    RulesOfList(q, v, Trailing(q, v));
    if Unrolls(irls, Proper(q.lhs), depth + 1, out) {
      var irl :| irl in irls && irl.lhs == Proper(q.lhs) && UnrollsBy(irls, irl, depth + 1, out);
      RulesOfList(q, v, irl);
      var front := UnrollsSplit(irls, irl, depth + 1, out);
      ListIsItems(q, v, depth, front);
      assert irl == Top(q, v) ==> out == front;
    }
    if IsItems(q, depth, out) {
      ListIsItems(q, v, depth, out);
      UnrollsStep(irls, Top(q, v), depth, out, []);
      assert out + [] == out;
    }
    if IsTrailingItems(q, depth, out) {
      var front :| IsItems(q, depth, front) && out == front + [Proper(q.separator)];
      ListIsItems(q, v, depth, front);
      UnrollsStep(irls, Trailing(q, v), depth, front, [Proper(q.separator)]);
    }
  }

  /** A list of `count` items is within the rule's minimum. */
  ghost predicate MeetsMinimum(q: SequenceRule, count: nat) {
    q.minimum <= count
  }

  /** The rewrite ignores the minimum: a lone item is always accepted. So every list it accepts has the
      number of items asked for exactly when the minimum is at most one. */
  lemma MinimumIgnored(q: SequenceRule, v: nat)
    ensures (forall count: nat | count > 0 && Unrolls(SequenceIrls(q, v), Virtual(v), count, Items(q, count)) ::
        MeetsMinimum(q, count))
            <==> q.minimum <= 1
  {
    ListIsItems(q, v, 1, Items(q, 1));
    assert IsItems(q, 1, Items(q, 1));
    if q.minimum > 1 {
      assert Unrolls(SequenceIrls(q, v), Virtual(v), 1, Items(q, 1)) && !MeetsMinimum(q, 1);
    }
  }
}
