/** Bit matrices: rows of bits packed into words. */
module BitMatrices {
  import opened BitVectors

  class BitMatrix {
    const rows: nat
    const columns: nat
    const mask: Word
    const data: array2<Word>

    ghost predicate Sized() {
      data.Length0 == rows && data.Length1 == (columns + 31) / 32 && MaskOk(columns, data.Length1, mask)
    }

    /** Bit `j` of row `i`. */
    predicate Has(i: nat, j: nat)
      reads data
    {
      i < rows && i < data.Length0 && j < columns && j / 32 < data.Length1 && Nth(data[i, j / 32], j % 32)
    }

    /** No bit of the row is set past its end. */
    ghost predicate TrimmedRow(i: nat)
      reads data
    {
      Sized() && i < rows && forall j: nat | columns <= j < 32 * data.Length1 :: !Nth(data[i, j / 32], j % 32)
    }

    ghost predicate Valid()
      reads data
    {
      Sized() && forall i: nat | i < rows :: TrimmedRow(i)
    }

    constructor (rows: nat, columns: nat)
      ensures Valid() && this.rows == rows && this.columns == columns && fresh(data)
      ensures forall i: nat, j: nat :: !Has(i, j)
    {
      this.rows, this.columns := rows, columns;
      data := new Word[rows, (columns + 31) / 32]((i, j) => 0);
      var m := UnusedMask(columns);
      mask := m;
      new;
      ZeroWord();
    }

    method Set(i: nat, j: nat)
      requires Valid() && i < rows && j < columns
      modifies data
      ensures Valid()
      ensures forall p: nat, q: nat :: Has(p, q) == (old(Has(p, q)) || (p == i && q == j))
    {
      hide Nth, One, MaskOk;
      var w := j / 32;
      assert w < data.Length1;
      ghost var before := data[i, w];
      data[i, w] := data[i, w] | One(j % 32);
      forall k: nat | k < 32 ensures Nth(data[i, w], k) <==> Nth(before, k) || k == j % 32 {
        NthOr(before, One(j % 32), j % 32, k);
      }
      forall p: nat | p < rows ensures TrimmedRow(p) {
        assert old(TrimmedRow(p));
      }
    }

    method Test(i: nat, j: nat) returns (on: bool)
      requires Valid() && i < rows && j < columns
      ensures on == Has(i, j)
    {
      assert j / 32 < data.Length1;
      on := Meets(data[i, j / 32], One(j % 32));
    }

    /** Or one row into another, word by word, and clear what is past the end. */
    method OrAssign(into: nat, from: nat)
      requires Valid() && into < rows && from < rows && columns > 0
      modifies data
      ensures Valid()
      ensures forall j: nat :: Has(into, j) == (old(Has(into, j)) || old(Has(from, j)))
      ensures forall i: nat, j: nat | i != into :: Has(i, j) == old(Has(i, j))
    {
      hide Nth, One, MaskOk, And, Or;
      var size := data.Length1;
      for w := 0 to size
        invariant forall v | 0 <= v < w :: data[into, v] == Or(old(data[into, v]), old(data[from, v]))
        invariant forall v | w <= v < size :: data[into, v] == old(data[into, v])
        invariant forall i, v | 0 <= i < rows && 0 <= v < size && i != into :: data[i, v] == old(data[i, v])
      {
        data[into, w] := Or(data[into, w], data[from, w]);
      }
      data[into, size - 1] := And(data[into, size - 1], mask);
      forall j: nat | j < 32 * size
        ensures Nth(data[into, j / 32], j % 32) <==>
                j < columns && (old(Nth(data[into, j / 32], j % 32)) || old(Nth(data[from, j / 32], j % 32)))
      {
        OrBit(old(data[into, j / 32]), old(data[from, j / 32]), data[into, j / 32], mask, columns, size, j);
      }
      forall p: nat | p < rows ensures TrimmedRow(p) {
        assert old(TrimmedRow(p));
      }
    }
  }

  function Or(v: Word, w: Word): Word {
    v | w
  }

  lemma AndOfOr(a: Word, b: Word, p: Word)
    ensures And(Or(a, b), p) == Or(And(a, p), And(b, p))
  {
  }

  lemma OrZero(x: Word, y: Word)
    ensures Or(x, y) == 0 <==> x == 0 && y == 0
  {
  }

  lemma MeetsIsAnd(w: Word, p: Word)
    ensures Meets(w, p) <==> And(w, p) != 0
  {
  }

  lemma OrMeets(a: Word, b: Word, p: Word)
    ensures Meets(Or(a, b), p) <==> Meets(a, p) || Meets(b, p)
  {
    hide Meets, And, Or;
    AndOfOr(a, b, p);
    OrZero(And(a, p), And(b, p));
    MeetsIsAnd(Or(a, b), p);
    MeetsIsAnd(a, p);
    MeetsIsAnd(b, p);
  }

  lemma NthOfOr(a: Word, b: Word, k: nat)
    requires k < 32
    ensures Nth(Or(a, b), k) <==> Nth(a, k) || Nth(b, k)
  {
    hide One, Meets, Or;
    OrMeets(a, b, One(k));
  }

  /** One bit of the or of two words, the last of them masked. */
  lemma OrBit(a: Word, b: Word, c: Word, mask: Word, bits: nat, size: nat, j: nat)
    requires size > 0 && size == (bits + 31) / 32 && MaskOk(bits, size, mask) && j < 32 * size
    requires c == if j / 32 == size - 1 then And(Or(a, b), mask) else Or(a, b)
    ensures Nth(c, j % 32) <==> j < bits && (Nth(a, j % 32) || Nth(b, j % 32))
  {
    hide Nth, Or, And;
    NthOfOr(a, b, j % 32);
    if j / 32 == size - 1 {
      TrimBit(Or(a, b), mask, bits - 32 * (size - 1), j % 32);
    }
  }

  lemma ZeroWord()
    ensures forall k: nat | k < 32 :: !Nth(0, k)
  {
  }
}
