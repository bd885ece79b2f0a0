/** And/or graphs and the parse trees in them, as sequences of choices made in preorder. */
module Trees {

  datatype Option<T> = None | Some(value: T)

  /** One way to build an or-node: the part before its last symbol, if any, and the or-node of the last
      symbol, or None when that symbol is a token. */
  datatype And = And(predecessor: Option<nat>, cause: Option<nat>)

  /** `nonEmpty` tells whether the or-node spans input; `ands` are its and-nodes in ranking order. */
  datatype Or = Or(nonEmpty: bool, ands: seq<And>)

  datatype Bocage = Bocage(ors: seq<Or>, top: nat)

  /** The or-nodes an and-node calls for, cause first. */
  function Children(a: And): seq<nat> {
    (if a.cause.Some? then [a.cause.value] else [])
    + (if a.predecessor.Some? then [a.predecessor.value] else [])
  }

  /** Or-nodes of no length lead only to other or-nodes of no length, never back to themselves: `w`
      bounds the size of the tree below each. */
  ghost predicate BocageOk(b: Bocage, w: seq<nat>) {
    && b.top < |b.ors| && b.ors[b.top].nonEmpty
    && |w| == |b.ors|
    && forall o: nat | o < |b.ors| ::
         && b.ors[o].ands != []
         && forall k: nat | k < |b.ors[o].ands| :: AndOk(b, w, o, b.ors[o].ands[k])
  }

  ghost predicate AndOk(b: Bocage, w: seq<nat>, o: nat, a: And)
    requires o < |b.ors| == |w|
  {
    && (forall c | c in Children(a) :: c < |b.ors|)
    && (!b.ors[o].nonEmpty ==>
          && (forall c | c in Children(a) :: !b.ors[c].nonEmpty)
          && Load(b, w, Children(a)) < w[o])
  }

  /** The total weight of the empty or-nodes waiting. */
  ghost function Load(b: Bocage, w: seq<nat>, agenda: seq<nat>): nat {
    if agenda == [] then 0
    else (if agenda[0] < |b.ors| == |w| && !b.ors[agenda[0]].nonEmpty then w[agenda[0]] else 0)
         + Load(b, w, agenda[1..])
  }

  // ---------------------------------------------------------------- partial trees

  /** A partial tree seen from its edge: the or-nodes still to be expanded, next first, and the
      non-empty or-nodes already in it. */
  datatype Config = Config(agenda: seq<nat>, used: set<nat>)

  ghost function Initial(b: Bocage): Config {
    Config([b.top], {})
  }

  /** The next or-node can be added: a non-empty one may occur only once in a tree. */
  predicate Open(b: Bocage, c: Config) {
    && c.agenda != []
    && c.agenda[0] < |b.ors|
    && (b.ors[c.agenda[0]].nonEmpty ==> c.agenda[0] !in c.used)
  }

  /** Expand the next or-node with its and-node number `choice`. */
  ghost function Step(b: Bocage, c: Config, choice: nat): Config
    requires Open(b, c) && choice < |b.ors[c.agenda[0]].ands|
  {
    var o := c.agenda[0];
    Config(Children(b.ors[o].ands[choice]) + c.agenda[1..], if b.ors[o].nonEmpty then c.used + {o} else c.used)
  }

  ghost predicate CanStep(b: Bocage, c: Config, choice: nat) {
    Open(b, c) && choice < |b.ors[c.agenda[0]].ands|
  }

  /** The choices can be made one after the other. */
  ghost predicate Runs(b: Bocage, c: Config, p: seq<nat>)
    decreases |p|
  {
    p == [] || (CanStep(b, c, p[0]) && Runs(b, Step(b, c, p[0]), p[1..]))
  }

  ghost function After(b: Bocage, c: Config, p: seq<nat>): Config
    requires Runs(b, c, p)
    decreases |p|
  {
    if p == [] then c else After(b, Step(b, c, p[0]), p[1..])
  }

  /** A parse tree: the choices of all its or-nodes in preorder, none left to make. */
  ghost predicate IsTree(b: Bocage, p: seq<nat>) {
    Runs(b, Initial(b), p) && After(b, Initial(b), p).agenda == []
  }

  lemma {:induction false} RunsSnoc(b: Bocage, c: Config, p: seq<nat>, x: nat)
    ensures Runs(b, c, p + [x]) <==> Runs(b, c, p) && CanStep(b, After(b, c, p), x)
    ensures Runs(b, c, p + [x]) ==> After(b, c, p + [x]) == Step(b, After(b, c, p), x)
    decreases |p|
  {
    if p == [] {
      assert (p + [x])[1..] == [];
    } else {
      assert (p + [x])[1..] == p[1..] + [x];
      if CanStep(b, c, p[0]) {
        RunsSnoc(b, Step(b, c, p[0]), p[1..], x);
      }
    }
  }

  /** A run can be cut anywhere. */
  lemma {:induction false} RunsCut(b: Bocage, c: Config, p: seq<nat>, n: nat)
    requires Runs(b, c, p) && n <= |p|
    ensures Runs(b, c, p[..n]) && Runs(b, After(b, c, p[..n]), p[n..])
    ensures After(b, After(b, c, p[..n]), p[n..]) == After(b, c, p)
    decreases n
  {
    if n > 0 {
      RunsCut(b, Step(b, c, p[0]), p[1..], n - 1);
      assert p[..n][1..] == p[1..][..n - 1] && p[n..] == p[1..][n - 1..];
    } else {
      assert p[..0] == [] && p[0..] == p;
    }
  }

  // ---------------------------------------------------------------- the order of trees

  /** `p` comes before `q`: at the first difference it makes the earlier choice. */
  ghost predicate Less(p: seq<nat>, q: seq<nat>) {
    exists k: nat :: k < |p| && k < |q| && p[..k] == q[..k] && p[k] < q[k]
  }

  ghost predicate AtOrAfter(p: seq<nat>, q: seq<nat>) {
    p <= q || Less(p, q)
  }

  lemma LessExtends(p: seq<nat>, q: seq<nat>, r: seq<nat>)
    requires Less(p, q)
    ensures Less(p, q + r)
  {
    var k: nat :| k < |p| && k < |q| && p[..k] == q[..k] && p[k] < q[k];
    assert (q + r)[..k] == q[..k];
  }

  /** Giving up the last choice: what came after it with no later choice at that place came after the rest. */
  lemma LessSnoc(p: seq<nat>, x: nat, q: seq<nat>)
    ensures Less(p + [x], q) <==> Less(p, q) || (p < q && q[|p|] > x)
    ensures AtOrAfter(p + [x], q) <==> Less(p, q) || (p < q && q[|p|] >= x)
  {
    var px := p + [x];
    if Less(px, q) {
      var k: nat :| k < |px| && k < |q| && px[..k] == q[..k] && px[k] < q[k];
      if k < |p| {
        assert p[..k] == px[..k];
      }
    }
    if Less(p, q) {
      var k: nat :| k < |p| && k < |q| && p[..k] == q[..k] && p[k] < q[k];
      assert px[..k] == p[..k];
    }
    if p < q {
      assert px[..|p|] == p == q[..|p|];
    }
  }

  /** Trees are listed in order: nothing that starts like a dead end is a tree. */
  ghost predicate Listed(b: Bocage, from: Option<seq<nat>>, d: seq<nat>) {
    IsTree(b, d) && (from.Some? ==> Less(from.value, d))
  }

  /** Every tree still to be listed starts with these choices or comes later. */
  ghost predicate Live(b: Bocage, from: Option<seq<nat>>, p: seq<nat>) {
    forall d | Listed(b, from, d) :: AtOrAfter(p, d)
  }

  /** Every tree still to be listed comes later. */
  ghost predicate Dead(b: Bocage, from: Option<seq<nat>>, p: seq<nat>) {
    forall d | Listed(b, from, d) :: Less(p, d)
  }

  lemma LiveStart(b: Bocage, w: seq<nat>)
    requires BocageOk(b, w)
    ensures Live(b, None, [0])
  {
    forall d | Listed(b, None, d) ensures AtOrAfter([0], d) {
      LessSnoc([], 0, d);
      assert [] + [0] == [0];
      assert d != [];
    }
  }

  lemma TreeChoices(b: Bocage, p: seq<nat>, d: seq<nat>)
    requires IsTree(b, d) && Runs(b, Initial(b), p) && p < d
    ensures CanStep(b, After(b, Initial(b), p), d[|p|])
  {
    RunsCut(b, Initial(b), d, |p|);
    assert d[..|p|] == p && d[|p|..][0] == d[|p|];
  }

  /** Blocked: no tree starts with these choices. */
  lemma BlockedIsDead(b: Bocage, from: Option<seq<nat>>, p: seq<nat>)
    requires Runs(b, Initial(b), p) && Live(b, from, p)
    requires var c := After(b, Initial(b), p); c.agenda != [] && !Open(b, c)
    ensures Dead(b, from, p)
  {
    forall d | Listed(b, from, d) ensures Less(p, d) {
      if p <= d && p != d {
        TreeChoices(b, p, d);
      }
    }
  }

  lemma LiveDown(b: Bocage, from: Option<seq<nat>>, p: seq<nat>)
    requires Runs(b, Initial(b), p) && Live(b, from, p) && After(b, Initial(b), p).agenda != []
    ensures Live(b, from, p + [0])
  {
    forall d | Listed(b, from, d) ensures AtOrAfter(p + [0], d) {
      LessSnoc(p, 0, d);
      assert d != p;
    }
  }

  lemma DeadNext(b: Bocage, from: Option<seq<nat>>, p: seq<nat>, x: nat)
    requires Dead(b, from, p + [x])
    ensures Live(b, from, p + [x + 1])
  {
    forall d | Listed(b, from, d) ensures AtOrAfter(p + [x + 1], d) {
      LessSnoc(p, x, d);
      LessSnoc(p, x + 1, d);
    }
  }

  lemma DeadUp(b: Bocage, from: Option<seq<nat>>, p: seq<nat>, x: nat)
    requires Runs(b, Initial(b), p) && Dead(b, from, p + [x])
    requires !CanStep(b, After(b, Initial(b), p), x + 1)
    ensures Dead(b, from, p)
  {
    forall d | Listed(b, from, d) ensures Less(p, d) {
      LessSnoc(p, x, d);
      if p < d && d[|p|] > x {
        TreeChoices(b, p, d);
      }
    }
  }

  // ---------------------------------------------------------------- the search ends

  ghost function Ids(n: nat): (s: set<nat>)
    ensures forall o: nat :: o in s <==> o < n
  {
    if n == 0 then {} else Ids(n - 1) + {n - 1}
  }

  ghost function Unused(b: Bocage, c: Config): set<nat> {
    Ids(|b.ors|) - c.used
  }

  lemma LoadSplit(b: Bocage, w: seq<nat>, s: seq<nat>, t: seq<nat>)
    ensures Load(b, w, s + t) == Load(b, w, s) + Load(b, w, t)
  {
    if s == [] {
      assert s + t == t;
    } else {
      assert (s + t)[1..] == s[1..] + t;
      LoadSplit(b, w, s[1..], t);
    }
  }

  /** Each step uses up a non-empty or-node or lightens the load of empty ones. */
  lemma StepShrinks(b: Bocage, w: seq<nat>, c: Config, choice: nat)
    requires BocageOk(b, w) && CanStep(b, c, choice)
    ensures var d := Step(b, c, choice);
            Unused(b, d) < Unused(b, c) || (Unused(b, d) == Unused(b, c) && Load(b, w, d.agenda) < Load(b, w, c.agenda))
  {
    var o := c.agenda[0];
    var d := Step(b, c, choice);
    if b.ors[o].nonEmpty {
      assert o in Unused(b, c) && o !in Unused(b, d);
      assert Unused(b, d) <= Unused(b, c);
    } else {
      assert AndOk(b, w, o, b.ors[o].ands[choice]);
      LoadSplit(b, w, Children(b.ors[o].ands[choice]), c.agenda[1..]);
    }
  }

  /** The number of partial trees below this one, itself included. */
  ghost function Below(b: Bocage, w: seq<nat>, c: Config): nat
    requires BocageOk(b, w)
    decreases Unused(b, c), Load(b, w, c.agenda), |b.ors|, 1, 0
  {
    1 + if Open(b, c) then BelowFrom(b, w, c, 0) else 0
  }

  ghost function BelowFrom(b: Bocage, w: seq<nat>, c: Config, choice: nat): nat
    requires BocageOk(b, w) && Open(b, c)
    decreases Unused(b, c), Load(b, w, c.agenda), |b.ors|, 0, |b.ors[c.agenda[0]].ands| - choice
  {
    if choice >= |b.ors[c.agenda[0]].ands| then 0
    else
      StepShrinks(b, w, c, choice);
      Below(b, w, Step(b, c, choice)) + BelowFrom(b, w, c, choice + 1)
  }

  lemma BelowStep(b: Bocage, w: seq<nat>, c: Config, choice: nat)
    requires BocageOk(b, w) && CanStep(b, c, choice)
    ensures BelowFrom(b, w, c, choice) == Below(b, w, Step(b, c, choice)) + BelowFrom(b, w, c, choice + 1)
    ensures Below(b, w, c) == 1 + BelowFrom(b, w, c, 0)
  {
  }

  /** The number of partial trees still ahead once everything below `p` is done. */
  ghost function Ahead(b: Bocage, w: seq<nat>, c: Config, p: seq<nat>): nat
    requires BocageOk(b, w) && Runs(b, c, p)
    decreases |p|
  {
    if p == [] then 0
    else BelowFrom(b, w, c, p[0] + 1) + Ahead(b, w, Step(b, c, p[0]), p[1..])
  }

  lemma {:induction false} AheadSnoc(b: Bocage, w: seq<nat>, c: Config, p: seq<nat>, x: nat)
    requires BocageOk(b, w) && Runs(b, c, p + [x])
    ensures Runs(b, c, p) && Open(b, After(b, c, p))
    ensures Ahead(b, w, c, p + [x]) == Ahead(b, w, c, p) + BelowFrom(b, w, After(b, c, p), x + 1)
    decreases |p|
  {
    hide BocageOk, BelowFrom;
    RunsSnoc(b, c, p, x);
    if p == [] {
      assert [x][1..] == [] && p + [x] == [x];
    } else {
      var px := p + [x];
      assert px[1..] == p[1..] + [x] && px[0] == p[0];
      AheadSnoc(b, w, Step(b, c, p[0]), p[1..], x);
    }
  }
}
