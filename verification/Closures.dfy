/** Transitive closure of a square bit matrix, computed in place on packed rows. */
module Closures {
  import opened BitMatrices

  /** The matrix as it was handed in, row by row. */
  type Bits = seq<seq<bool>>

  ghost predicate Square(e: Bits) {
    forall i | 0 <= i < |e| :: |e[i]| == |e|
  }

  predicate Bit(e: Bits, i: nat, j: nat) {
    i < |e| && j < |e[i]| && e[i][j]
  }

  /** A walk of at least one step along set bits. */
  ghost predicate Walk(e: Bits, p: seq<nat>) {
    && |p| >= 2
    && (forall k, m | 0 <= k && m == k + 1 && m < |p| :: Bit(e, p[k], p[m]))
  }

  ghost predicate Reaches(e: Bits, i: nat, j: nat) {
    exists p :: Walk(e, p) && p[0] == i && p[|p| - 1] == j
  }

  /** Reachable with every stop in between below `n`. */
  ghost predicate Within(e: Bits, n: nat, i: nat, j: nat) {
    if n == 0 then Bit(e, i, j)
    else Within(e, n - 1, i, j) || (Within(e, n - 1, i, n - 1) && Within(e, n - 1, n - 1, j))
  }

  lemma {:induction false} WithinIsWalk(e: Bits, n: nat, i: nat, j: nat) returns (p: seq<nat>)
    requires Within(e, n, i, j)
    ensures Walk(e, p) && p[0] == i && p[|p| - 1] == j
    decreases n
  {
    if n == 0 {
      p := [i, j];
    } else if Within(e, n - 1, i, j) {
      p := WithinIsWalk(e, n - 1, i, j);
    } else {
      var a := WithinIsWalk(e, n - 1, i, n - 1);
      var b := WithinIsWalk(e, n - 1, n - 1, j);
      p := a + b[1..];
      assert a[|a| - 1] == n - 1 == b[0];
      forall k, m | 0 <= k && m == k + 1 && m < |p| ensures Bit(e, p[k], p[m]) {
        if m < |a| {
          assert Bit(e, a[k], a[m]);
        } else {
          assert p[m] == b[m - |a| + 1] && p[k] == b[k - |a| + 1];
          assert Bit(e, b[k - |a| + 1], b[m - |a| + 1]);
        }
      }
    }
  }

  ghost predicate StopsBelow(p: seq<nat>, n: nat) {
    forall k | 0 < k < |p| - 1 :: p[k] < n
  }

  lemma WalkParts(e: Bits, p: seq<nat>, q: nat)
    requires Walk(e, p) && 0 < q < |p| - 1
    ensures Walk(e, p[..q + 1]) && Walk(e, p[q..])
  {
    forall k, m | 0 <= k && m == k + 1 && m < |p[q..]| ensures Bit(e, p[q..][k], p[q..][m]) {
      assert Bit(e, p[q + k], p[q + m]);
    }
  }

  lemma FirstStop(p: seq<nat>, v: int) returns (q: nat)
    requires |p| >= 2
    ensures 0 < q <= |p| - 1 && (q < |p| - 1 ==> p[q] == v)
    ensures forall k | 0 < k < q :: p[k] != v
  {
    q := 1;
    while q < |p| - 1 && p[q] != v
      invariant 0 < q <= |p| - 1
      invariant forall k | 0 < k < q :: p[k] != v
    {
      q := q + 1;
    }
  }

  lemma SecondStop(p: seq<nat>, n: nat)
    requires |p| >= 2 && StopsBelow(p, n)
    ensures |p| == 2 || p[1] < n
  {
    if |p| > 2 {
      assert p[1] < n;
    }
  }

  lemma {:induction false} WalkIsWithin(e: Bits, n: nat, p: seq<nat>)
    requires Walk(e, p) && StopsBelow(p, n)
    ensures Within(e, n, p[0], p[|p| - 1])
    decreases n, |p|
  {
    if n == 0 {
      SecondStop(p, n);
      assert Bit(e, p[0], p[1]);
    } else {
      var q := FirstStop(p, n - 1);
      if q < |p| - 1 {
        WalkParts(e, p, q);
        var left, right := p[..q + 1], p[q..];
        assert StopsBelow(left, n - 1) && left[|left| - 1] == n - 1;
        assert StopsBelow(right, n) && right[|right| - 1] == p[|p| - 1];
        WalkIsWithin(e, n - 1, left);
        WalkIsWithin(e, n, right);
        OwnRow(e, n - 1, p[|p| - 1]);
      } else {
        WalkIsWithin(e, n - 1, p);
      }
    }
  }

  lemma WithinExact(e: Bits, i: nat, j: nat)
    requires Square(e)
    ensures Within(e, |e|, i, j) <==> Reaches(e, i, j)
  {
    if Within(e, |e|, i, j) {
      var p := WithinIsWalk(e, |e|, i, j);
    }
    if p :| Walk(e, p) && p[0] == i && p[|p| - 1] == j {
      forall k | 0 < k < |p| - 1 ensures p[k] < |e| {
        assert Bit(e, p[k], p[k + 1]);
      }
      WalkIsWithin(e, |e|, p);
    }
  }

  // ---------------------------------------------------------------- the matrix

  ghost predicate Holds(m: BitMatrix, e: Bits)
    reads m.data
  {
    && m.Valid() && m.rows == m.columns == |e| && Square(e)
    && forall i: nat, j: nat | i < |e| && j < |e| :: m.Has(i, j) == e[i][j]
  }

  /** The matrix shows which symbols lead to which. */
  ghost predicate ShowsReach(m: BitMatrix, e: Bits)
    reads m.data
  {
    && m.Valid() && m.rows == m.columns == |e|
    && forall i: nat, j: nat | i < |e| && j < |e| :: m.Has(i, j) <==> Reaches(e, i, j)
  }

  /** Row `i` already allows stops up to and including `n`, or still only below `n`. */
  ghost predicate RowIs(m: BitMatrix, e: Bits, n: nat, i: nat)
    reads m.data
  {
    forall j: nat | j < m.columns :: m.Has(i, j) == Within(e, n, i, j)
  }

  /** Going through `n` adds nothing to the rows out of `n` and into `n`. */
  lemma OwnRow(e: Bits, n: nat, j: nat)
    ensures Within(e, n + 1, n, j) == Within(e, n, n, j)
    ensures Within(e, n + 1, j, n) == Within(e, n, j, n)
  {
  }

  /** While a row is processed, the outer row is the same whether it has been processed or not. */
  lemma OuterRow(m: BitMatrix, e: Bits, outer: nat)
    requires RowIs(m, e, outer, outer) || RowIs(m, e, outer + 1, outer)
    ensures RowIs(m, e, outer, outer)
  {
    forall j: nat | j < m.columns ensures m.Has(outer, j) == Within(e, outer, outer, j) {
      OwnRow(e, outer, j);
    }
  }

  /** Process one row: or the outer row into it if it leads there. */
  method CloseRow(m: BitMatrix, ghost e: Bits, outer: nat, row: nat)
    requires m.Valid() && m.rows == m.columns && outer < m.columns && row < m.columns
    requires RowIs(m, e, outer, outer) && RowIs(m, e, outer, row)
    modifies m.data
    ensures m.Valid() && RowIs(m, e, outer + 1, row)
    ensures forall i: nat, j: nat | i != row :: m.Has(i, j) == old(m.Has(i, j))
  {
    hide BitMatrix.Valid;
    var on := m.Test(row, outer);
    if on {
      m.OrAssign(row, outer);
    }
  }

  /** Bit (i, j) ends up set exactly when the original matrix leads from i to j in one or more steps. */
  method TransitiveClosure(m: BitMatrix, ghost e: Bits)
    requires Holds(m, e)
    modifies m.data
    ensures ShowsReach(m, e)
  {
    hide BitMatrix.Valid, BitMatrix.Has;
    var size := m.columns;
    for outer := 0 to size
      invariant m.Valid() && forall i: nat | i < size :: RowIs(m, e, outer, i)
    {
      ghost var next := outer + 1;
      for row := 0 to size
        invariant m.Valid()
        invariant forall i: nat | i < row :: RowIs(m, e, next, i)
        invariant forall i: nat | row <= i < size :: RowIs(m, e, outer, i)
      {
        OuterRow(m, e, outer);
        label before:
        CloseRow(m, e, outer, row);
        forall i: nat | i < row ensures RowIs(m, e, next, i) {
          assert old@before(RowIs(m, e, next, i));
        }
        forall i: nat | row < i < size ensures RowIs(m, e, outer, i) {
          assert old@before(RowIs(m, e, outer, i));
        }
      }
    }
    forall i: nat, j: nat | i < |e| && j < |e| ensures m.Has(i, j) <==> Reaches(e, i, j) {
      assert RowIs(m, e, size, i);
      WithinExact(e, i, j);
    }
  }
}
