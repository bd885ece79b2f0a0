/** What productions derive over a set of accepted tokens, for grammars with empty rules and infinitely many
    productions. */
module Languages {
  import opened Chaf
  import opened Derivations

  /** External symbols are written as their non-null versions. */
  type Production = (Nsy, seq<Nsy>)

  predicate Reads(ts: set<Token>, a: Nsy, i: nat, j: nat) {
    a.Proper? && i < j && Token(a.xsy, i, j) in ts
  }

  /** At most `depth` productions deep, symbol `a` spans the tokens from `i` to `j`. */
  ghost predicate Derives(ps: iset<Production>, ts: set<Token>, depth: nat, a: Nsy, i: nat, j: nat)
    decreases depth, 0
  {
    depth > 0 && (Reads(ts, a, i, j) || exists rhs :: (a, rhs) in ps && DerivesAll(ps, ts, depth - 1, rhs, i, j))
  }

  /** The symbols of `rhs` span the tokens from `i` to `j`, one after the other. */
  ghost predicate DerivesAll(ps: iset<Production>, ts: set<Token>, depth: nat, rhs: seq<Nsy>, i: nat, j: nat)
    decreases depth, |rhs|
  {
    if rhs == [] then i == j
    else exists m: nat :: Derives(ps, ts, depth, rhs[0], i, m) && DerivesAll(ps, ts, depth, rhs[1..], m, j)
  }

  ghost predicate Spells(ps: iset<Production>, ts: set<Token>, a: Nsy, i: nat, j: nat) {
    exists depth: nat :: Derives(ps, ts, depth, a, i, j)
  }

  ghost predicate SpellsAll(ps: iset<Production>, ts: set<Token>, rhs: seq<Nsy>, i: nat, j: nat) {
    exists depth: nat :: DerivesAll(ps, ts, depth, rhs, i, j)
  }

  lemma {:induction false} Deeper(ps: iset<Production>, ts: set<Token>, d: nat, e: nat, a: Nsy, i: nat, j: nat)
    requires d <= e && Derives(ps, ts, d, a, i, j)
    ensures Derives(ps, ts, e, a, i, j)
    decreases d, 0
  {
    if !Reads(ts, a, i, j) {
      var rhs :| (a, rhs) in ps && DerivesAll(ps, ts, d - 1, rhs, i, j);
      AllDeeper(ps, ts, d - 1, e - 1, rhs, i, j);
    }
  }

  lemma {:induction false} AllDeeper(ps: iset<Production>, ts: set<Token>, d: nat, e: nat, rhs: seq<Nsy>, i: nat,
      j: nat)
    requires d <= e && DerivesAll(ps, ts, d, rhs, i, j)
    ensures DerivesAll(ps, ts, e, rhs, i, j)
    decreases d, |rhs|
  {
    if rhs != [] {
      var m: nat :| Derives(ps, ts, d, rhs[0], i, m) && DerivesAll(ps, ts, d, rhs[1..], m, j);
      Deeper(ps, ts, d, e, rhs[0], i, m);
      AllDeeper(ps, ts, d, e, rhs[1..], m, j);
    }
  }

  lemma {:induction false} Order(ps: iset<Production>, ts: set<Token>, d: nat, a: Nsy, i: nat, j: nat)
    requires Derives(ps, ts, d, a, i, j)
    ensures i <= j
    decreases d, 0
  {
    if !Reads(ts, a, i, j) {
      var rhs :| (a, rhs) in ps && DerivesAll(ps, ts, d - 1, rhs, i, j);
      AllOrder(ps, ts, d - 1, rhs, i, j);
    }
  }

  lemma {:induction false} AllOrder(ps: iset<Production>, ts: set<Token>, d: nat, rhs: seq<Nsy>, i: nat, j: nat)
    requires DerivesAll(ps, ts, d, rhs, i, j)
    ensures i <= j
    decreases d, |rhs|
  {
    if rhs != [] {
      var m: nat :| Derives(ps, ts, d, rhs[0], i, m) && DerivesAll(ps, ts, d, rhs[1..], m, j);
      Order(ps, ts, d, rhs[0], i, m);
      AllOrder(ps, ts, d, rhs[1..], m, j);
    }
  }

  /** Cut a derivation of two lists of symbols in the middle. */
  lemma {:induction false} SpellsSplit(ps: iset<Production>, ts: set<Token>, d: nat, x: seq<Nsy>, y: seq<Nsy>, i: nat,
      j: nat)
    returns (m: nat)
    requires DerivesAll(ps, ts, d, x + y, i, j)
    ensures DerivesAll(ps, ts, d, x, i, m) && DerivesAll(ps, ts, d, y, m, j)
    decreases |x|
  {
    if x == [] {
      assert x + y == y;
      m := i;
    } else {
      var k: nat :| Derives(ps, ts, d, (x + y)[0], i, k) && DerivesAll(ps, ts, d, (x + y)[1..], k, j);
      assert (x + y)[1..] == x[1..] + y;
      m := SpellsSplit(ps, ts, d, x[1..], y, k, j);
    }
  }

  lemma {:induction false} DerivesJoin(ps: iset<Production>, ts: set<Token>, d: nat, x: seq<Nsy>, y: seq<Nsy>, i: nat,
      m: nat, j: nat)
    requires DerivesAll(ps, ts, d, x, i, m) && DerivesAll(ps, ts, d, y, m, j)
    ensures DerivesAll(ps, ts, d, x + y, i, j)
    decreases |x|
  {
    if x == [] {
      assert x + y == y;
    } else {
      var k: nat :| Derives(ps, ts, d, x[0], i, k) && DerivesAll(ps, ts, d, x[1..], k, m);
      assert (x + y)[1..] == x[1..] + y;
      DerivesJoin(ps, ts, d, x[1..], y, k, m, j);
    }
  }

  /** Spans join, whatever their depths. */
  lemma SpellsJoin(ps: iset<Production>, ts: set<Token>, x: seq<Nsy>, y: seq<Nsy>, i: nat, m: nat, j: nat)
    requires SpellsAll(ps, ts, x, i, m) && SpellsAll(ps, ts, y, m, j)
    ensures SpellsAll(ps, ts, x + y, i, j)
  {
    var d: nat :| DerivesAll(ps, ts, d, x, i, m);
    var e: nat :| DerivesAll(ps, ts, e, y, m, j);
    var deep := if d < e then e else d;
    AllDeeper(ps, ts, d, deep, x, i, m);
    AllDeeper(ps, ts, e, deep, y, m, j);
    DerivesJoin(ps, ts, deep, x, y, i, m, j);
  }

  lemma SpellsOne(ps: iset<Production>, ts: set<Token>, a: Nsy, i: nat, j: nat)
    ensures SpellsAll(ps, ts, [a], i, j) <==> Spells(ps, ts, a, i, j)
  {
    forall d: nat ensures DerivesAll(ps, ts, d, [a], i, j) <==> Derives(ps, ts, d, a, i, j) {
      OneDerives(ps, ts, d, a, i, j);
    }
  }

  lemma OneDerives(ps: iset<Production>, ts: set<Token>, d: nat, a: Nsy, i: nat, j: nat)
    ensures DerivesAll(ps, ts, d, [a], i, j) <==> Derives(ps, ts, d, a, i, j)
  {
    assert [a][1..] == [];
    if Derives(ps, ts, d, a, i, j) {
      assert DerivesAll(ps, ts, d, [a][1..], j, j);
    }
  }

  lemma SpellsBy(ps: iset<Production>, ts: set<Token>, a: Nsy, rhs: seq<Nsy>, i: nat, j: nat)
    requires (a, rhs) in ps && SpellsAll(ps, ts, rhs, i, j)
    ensures Spells(ps, ts, a, i, j)
  {
    var d: nat :| DerivesAll(ps, ts, d, rhs, i, j);
    assert Derives(ps, ts, d + 1, a, i, j);
  }

  lemma SpellsNothing(ps: iset<Production>, ts: set<Token>, i: nat)
    ensures SpellsAll(ps, ts, [], i, i)
  {
    assert DerivesAll(ps, ts, 0, [], i, i);
  }

  lemma SpellsToken(ps: iset<Production>, ts: set<Token>, a: Nsy, i: nat, j: nat)
    requires Reads(ts, a, i, j)
    ensures Spells(ps, ts, a, i, j)
  {
    assert Derives(ps, ts, 1, a, i, j);
  }
}
