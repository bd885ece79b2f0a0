/** Bit vectors packed into words, and the scan for runs of set bits. */
module BitVectors {

  type Word = bv32

  /** The word with bit `k` alone set. */
  function One(k: nat): Word
    requires k < 32
  {
    if k == 0 then 1 else One(k - 1) << 1
  }

  predicate Meets(w: Word, p: Word) {
    w & p != 0
  }

  predicate Nth(w: Word, k: nat)
    requires k < 32
  {
    Meets(w, One(k))
  }

  function Flip(w: Word): Word {
    !w
  }

  function And(v: Word, w: Word): Word {
    v & w
  }

  predicate Single(p: Word) {
    p != 0 && p & (p - 1) == 0
  }

  lemma SingleShift(p: Word)
    requires Single(p) && p < 0x8000_0000
    ensures Single(p << 1) && p < p << 1
  {
  }

  lemma SingleTop(p: Word)
    requires Single(p) && p >= 0x8000_0000
    ensures p << 1 == 0
  {
  }

  lemma {:induction false} ZeroStays(k: nat)
    requires k < 32 && One(k) == 0
    ensures One(31) == 0
    decreases 31 - k
  {
    if k < 31 {
      ZeroStays(k + 1);
    }
  }

  lemma LastOne()
    ensures One(31) == 0x8000_0000
  {
    assert One(3) == 0x8;
    assert One(6) == 0x40;
    assert One(9) == 0x200;
    assert One(12) == 0x1000;
    assert One(15) == 0x8000;
    assert One(18) == 0x40000;
    assert One(21) == 0x200000;
    assert One(24) == 0x1000000;
    assert One(27) == 0x8000000;
    assert One(30) == 0x40000000;
  }

  lemma {:induction false} OneSingle(k: nat)
    requires k < 32
    ensures Single(One(k)) && (k < 31 ==> One(k) < 0x8000_0000)
    decreases k
  {
    if k > 0 {
      OneSingle(k - 1);
      SingleShift(One(k - 1));
    }
    if k < 31 && One(k) >= 0x8000_0000 {
      SingleTop(One(k));
      ZeroStays(k + 1);
      LastOne();
      assert false;
    }
  }

  lemma {:induction false} OneOrder(j: nat, k: nat)
    requires j < k < 32
    ensures One(j) < One(k)
    decreases k
  {
    OneSingle(k - 1);
    SingleShift(One(k - 1));
    if j < k - 1 {
      OneOrder(j, k - 1);
    }
  }

  /** The bits above the only bit of `p`. */
  function Above(p: Word): Word {
    !(p | (p - 1))
  }

  lemma AboveLow(p: Word, q: Word)
    requires Single(p) && Single(q) && q <= p
    ensures !Meets(Above(p), q)
  {
  }

  lemma AboveHigh(p: Word, q: Word)
    requires Single(p) && Single(q) && p < q
    ensures Meets(Above(p), q)
  {
  }

  lemma AndSingle(a: Word, b: Word, p: Word)
    requires Single(p)
    ensures Meets(a & b, p) <==> Meets(a, p) && Meets(b, p)
  {
  }

  lemma NotSingle(a: Word, p: Word)
    requires Single(p)
    ensures Meets(Flip(a), p) <==> !Meets(a, p)
  {
  }

  // ---------------------------------------------------------------- the lowest set bit

  function Shifted(v: Word, n: nat): Word {
    if n == 0 then v else Shifted(v, n - 1) >> 1
  }

  lemma ShiftBit(x: Word, p: Word)
    requires Single(p) && p < 0x8000_0000
    ensures Meets(x >> 1, p) <==> Meets(x, p << 1)
  {
  }

  lemma {:induction false} ShiftedNth(v: Word, n: nat, m: nat)
    requires n + m < 32
    ensures Nth(Shifted(v, n), m) <==> Nth(v, n + m)
    decreases n
  {
    if n == 0 {
      ShiftedNone(v);
    } else {
      hide Shifted, Single, Meets;
      ShiftedNext(v, n - 1);
      OneSingle(m);
      ShiftBit(Shifted(v, n - 1), One(m));
      ShiftedNth(v, n - 1, m + 1);
    }
  }

  lemma LowStep(v: Word, p: Word)
    requires Single(p) && p < 0x8000_0000 && v & (p - 1) == 0 && v & p == 0
    ensures v & ((p << 1) - 1) == 0
  {
  }

  lemma {:induction false} LowZero(v: Word, n: nat)
    requires n < 32 && forall m: nat | m < n :: !Nth(v, m)
    ensures v & (One(n) - 1) == 0
    decreases n
  {
    if n > 0 {
      LowZero(v, n - 1);
      OneSingle(n - 1);
      assert !Nth(v, n - 1);
      LowStep(v, One(n - 1));
    }
  }

  /** A word with its first 31 bits clear is either clear or has just the last one set. */
  lemma TopBitLeft(v: Word)
    requires v != 0 && forall m: nat | m < 31 :: !Nth(v, m)
    ensures Nth(v, 31)
  {
    LowZero(v, 31);
    LastOne();
  }

  /** Shift right until a set bit drops to the bottom. */
  method LowestBit(v: Word) returns (n: nat)
    requires v != 0
    ensures n < 32 && Nth(v, n) && forall m: nat | m < n :: !Nth(v, m)
  {
    hide Shifted, Nth, One;
    n := 0;
    var rest := v;
    ShiftedNone(v);
    LowBit(rest);
    while rest & 1 == 0
      invariant n < 32 && rest == Shifted(v, n)
      invariant Nth(rest, 0) <==> rest & 1 != 0
      invariant forall m: nat | m < n :: !Nth(v, m)
      decreases 32 - n
    {
      ShiftedNth(v, n, 0);
      if n == 31 {
        TopBitLeft(v);
      }
      ShiftedNext(v, n);
      rest := rest >> 1;
      n := n + 1;
      LowBit(rest);
    }
    ShiftedNth(v, n, 0);
  }

  lemma ShiftedNone(v: Word)
    ensures Shifted(v, 0) == v
  {
  }

  lemma ShiftedNext(v: Word, n: nat)
    ensures Shifted(v, n + 1) == Shifted(v, n) >> 1
  {
  }

  lemma LowBit(v: Word)
    ensures Nth(v, 0) <==> v & 1 != 0
  {
  }

  // ---------------------------------------------------------------- vectors

  /** Bit `i` of packed words. */
  predicate Bit(words: seq<Word>, i: nat) {
    i / 32 < |words| && Nth(words[i / 32], i % 32)
  }

  ghost predicate MaskOk(bits: nat, size: nat, mask: Word) {
    size > 0 ==> 32 * (size - 1) < bits && Lows(mask, bits - 32 * (size - 1))
  }

  /** Just the bits below `r`. */
  ghost predicate Lows(w: Word, r: nat) {
    forall k: nat | k < 32 :: Nth(w, k) <==> k < r
  }

  lemma BelowBit(r: nat, k: nat)
    requires r < 32 && k < 32
    ensures Nth(One(r) - 1, k) <==> k < r
  {
    OneSingle(r);
    OneSingle(k);
    hide One, Single, Meets;
    if k < r {
      OneOrder(k, r);
      UnderOne(One(r), One(k));
    } else {
      if r < k {
        OneOrder(r, k);
      }
      OverOne(One(r), One(k));
    }
  }

  lemma BelowBits(w: Word, r: nat)
    requires r < 32 && w == One(r) - 1
    ensures Lows(w, r)
  {
    hide One, Nth;
    forall k: nat | k < 32 ensures Nth(w, k) <==> k < r {
      BelowBit(r, k);
    }
  }

  lemma UnderOne(p: Word, q: Word)
    requires Single(p) && Single(q) && q < p
    ensures Meets(p - 1, q)
  {
  }

  lemma OverOne(p: Word, q: Word)
    requires Single(p) && Single(q) && p <= q
    ensures !Meets(p - 1, q)
  {
  }

  lemma AllOnes()
    ensures forall k: nat | k < 32 :: Nth(0xFFFF_FFFF, k)
  {
    forall k: nat | k < 32 ensures Nth(0xFFFF_FFFF, k) {
      OneSingle(k);
      FullWord(One(k));
    }
  }

  lemma FullWord(p: Word)
    requires p != 0
    ensures Meets(0xFFFF_FFFF, p)
  {
  }

  /** The bits of the last word that are in use. */
  method UnusedMask(bits: nat) returns (mask: Word)
    ensures MaskOk(bits, (bits + 31) / 32, mask)
  {
    AllOnes();
    if bits % 32 == 0 {
      return 0xFFFF_FFFF;
    }
    mask := One(bits % 32) - 1;
    BelowBits(mask, bits % 32);
  }

  class BitVector {
    const bits: nat
    const words: array<Word>
    const mask: Word

    ghost predicate Valid()
      reads this
    {
      words.Length == (bits + 31) / 32 && MaskOk(bits, words.Length, mask)
    }

    /** The set the vector stands for. */
    ghost predicate Has(i: nat)
      reads this, words
    {
      i < bits && Bit(words[..], i)
    }

    /** No bit is set past the end. */
    ghost predicate Trimmed()
      reads this, words
    {
      forall i: nat | i >= bits :: !Bit(words[..], i)
    }

    constructor (bits: nat)
      ensures Valid() && this.bits == bits && fresh(words) && forall i: nat :: !Has(i)
    {
      this.bits := bits;
      words := new Word[(bits + 31) / 32](_ => 0);
      var m := UnusedMask(bits);
      mask := m;
      new;
      forall i: nat ensures !Has(i) {
        NoBit(words[..], i);
      }
    }

    /** Clear whatever is set past the end. */
    method Trim()
      requires Valid()
      modifies words
      ensures Trimmed() && forall i: nat :: Has(i) == old(Has(i))
    {
      var size := words.Length;
      if size > 0 {
        ghost var before := words[..];
        words[size - 1] := And(words[size - 1], mask);
        TrimLast(before, words[..], bits, mask);
      }
    }

    method Set(i: nat)
      requires Valid() && i < bits
      modifies words
      ensures forall j: nat :: Has(j) == (old(Has(j)) || j == i)
    {
      hide Nth, One, Bit;
      ghost var before := words[..];
      words[i / 32] := words[i / 32] | One(i % 32);
      SetOne(before, words[..], i);
    }

    /** The first word at or after `from` with a set bit, or with a clear one, or the end. */
    method SkipWords(from: nat, clear: bool) returns (o: nat)
      requires from <= words.Length
      ensures from <= o <= words.Length
      ensures o < words.Length ==> (if clear then Flip(words[o]) else words[o]) != 0
      ensures forall i: nat | 32 * from <= i < 32 * o :: Bit(words[..], i) == clear
    {
      hide Flip, Bit;
      o := from;
      while o < words.Length
        invariant from <= o <= words.Length
        invariant forall i: nat | 32 * from <= i < 32 * o :: Bit(words[..], i) == clear
      {
        var value := if clear then Flip(words[o]) else words[o];
        if value != 0 {
          return;
        }
        WholeWord(words[..], o, clear);
        o := o + 1;
      }
    }

    /** The first set bit at or after `start`. */
    method FirstSet(start: nat) returns (found: bool, min: nat)
      requires Valid() && Trimmed() && start < bits
      ensures found ==> start <= min && Bit(words[..], min) && forall i: nat | start <= i < min :: !Bit(words[..], i)
      ensures !found ==> forall i: nat | start <= i :: !Bit(words[..], i)
    {
      hide Nth, Above, One, Meets;
      var offset := start / 32;
      var bitmask := One(start % 32);
      var value := words[offset];
      if Meets(value, bitmask) {
        NthMeets(value, start % 32);
        return true, start;
      }
      NthMeets(value, start % 32);
      value := value & Above(bitmask);
      AboveBits(words[offset], value, start % 32);
      if value == 0 {
        ClearWord(value);
        offset := SkipWords(offset + 1, false);
        if offset == words.Length {
          return false, start;
        }
        value := words[offset];
      }
      var n := LowestBit(value);
      min := 32 * offset + n;
      assert min / 32 == offset && min % 32 == n;
      return true, min;
    }

    /** The first word with a clear bit after `min`, flipped and cut down to those bits. */
    method FirstClear(min: nat) returns (offset: nat, value: Word, ghost from: nat)
      requires min / 32 < words.Length && Bit(words[..], min)
      ensures value != 0 && offset <= words.Length && from <= 32 && min < 32 * offset + from
      ensures forall i: nat | min <= i < 32 * offset + from :: Bit(words[..], i)
      ensures if offset < words.Length then ClearIn(words[..], offset, value, from) else value == 1 && from == 0
    {
      hide Nth, Above, One, Bit, ClearIn, KeepsAbove, Flip;
      offset, from := min / 32, min % 32 + 1;
      value := Flip(words[offset]) & Above(One(min % 32));
      AboveBits(Flip(words[offset]), value, min % 32);
      ClearAfter(words[..], min, value);
      if value == 0 {
        RestSet(words[..], offset, value, from);
        offset := SkipWords(offset + 1, true);
        from := 0;
        value := 1;
        if offset < words.Length {
          value := Flip(words[offset]);
          ClearAll(words[..], offset, value);
        }
      }
    }

    /** The last bit of the run of set bits that `min` is in. */
    method RunEnd(min: nat) returns (max: nat)
      requires Bit(words[..], min)
      ensures min <= max && !Bit(words[..], max + 1)
      ensures forall i: nat | min <= i <= max :: Bit(words[..], i)
    {
      BitRange(words[..], min);
      hide Nth, Bit, ClearIn;
      var offset, value, from := FirstClear(min);
      var n := LowestBit(value);
      if offset < words.Length {
        RunFound(words[..], min, offset, value, from, n);
      } else {
        LowestOne(n);
        PastEnd(words[..], 32 * offset);
      }
      max := 32 * offset + n - 1;
    }

    /** The next run of set bits at or after `start`. */
    method Scan(start: nat) returns (found: bool, min: nat, max: nat)
      requires Valid()
      modifies words
      ensures forall i: nat :: Has(i) == old(Has(i))
      ensures if found
              then start <= min <= max < bits && !Has(max + 1)
                   && (forall i: nat | start <= i < min :: !Has(i)) && (forall i: nat | min <= i <= max :: Has(i))
              else forall i: nat | start <= i :: !Has(i)
    {
      min, max := start, start;
      if words.Length == 0 || start >= bits {
        return false, min, max;
      }
      Trim();
      found, min := FirstSet(start);
      if found {
        max := RunEnd(min);
        assert Bit(words[..], max);
      }
    }

    ghost function Members(): (s: set<nat>)
      reads this, words
      ensures forall i: nat :: i in s <==> Has(i)
    {
      set i: nat | i < bits && Has(i)
    }

    /** Scanning on from two past the end of each run visits every set bit once, in ascending maximal runs. */
    method Count() returns (count: nat, ghost runs: seq<Run>)
      requires Valid()
      modifies words
      ensures forall i: nat :: Has(i) == old(Has(i))
      ensures RunsOf(Members(), runs) && count == |Members()|
    {
      hide Has, RunsOf, Under, NextRun;
      ghost var s := Members();
      var start: nat := 0;
      count, runs := 0, [];
      UnderNone(s);
      var found, min: nat, max: nat := Scan(start);
      ScanIsNext(s, start, found, min, max);
      while found
        invariant Members() == s && (forall i: nat :: Has(i) <==> i in s)
        invariant RunsOf(Under(s, start), runs) && count == |Under(s, start)|
        invariant start > 0 ==> start - 1 !in s && (forall r | r in runs :: r.max + 1 < start)
        invariant NextRun(s, start, found, min, max) && (found ==> start <= min <= max < bits)
        decreases found, if found then bits - min else 0
      {
        AddRun(s, start, min, max, runs);
        runs := runs + [Run(min, max)];
        count := count + (max - min + 1);
        start := max + 2;
        found, min, max := Scan(start);
        ScanIsNext(s, start, found, min, max);
      }
      UnderAll(s, start, min, max);
    }

    lemma ScanIsNext(s: set<nat>, start: nat, found: bool, min: nat, max: nat)
      requires Members() == s
      requires if found
               then start <= min <= max < bits && !Has(max + 1)
                    && (forall i: nat | start <= i < min :: !Has(i)) && (forall i: nat | min <= i <= max :: Has(i))
               else forall i: nat | start <= i :: !Has(i)
      ensures NextRun(s, start, found, min, max) && (found ==> max < bits) && (forall i: nat :: Has(i) <==> i in s)
    {
      hide Has;
    }
  }

  /** The first run of the set at or after `start`, if there is one. */
  ghost predicate NextRun(s: set<nat>, start: nat, found: bool, min: nat, max: nat) {
    if found
    then start <= min <= max && max + 1 !in s
         && (forall i: nat | start <= i < min :: i !in s) && (forall i: nat | min <= i <= max :: i in s)
    else forall i: nat | start <= i :: i !in s
  }

  lemma UnderNone(s: set<nat>)
    ensures RunsOf(Under(s, 0), []) && |Under(s, 0)| == 0
  {
    assert Under(s, 0) == {};
  }

  lemma UnderAll(s: set<nat>, start: nat, min: nat, max: nat)
    requires NextRun(s, start, false, min, max)
    ensures Under(s, start) == s
  {
  }

  datatype Run = Run(min: nat, max: nat)

  ghost function Under(s: set<nat>, n: nat): set<nat> {
    set i | i in s && i < n
  }

  ghost predicate InRuns(runs: seq<Run>, i: nat) {
    exists k :: 0 <= k < |runs| && runs[k].min <= i <= runs[k].max
  }

  lemma InMoreRuns(runs: seq<Run>, last: Run, i: nat)
    ensures InRuns(runs + [last], i) <==> InRuns(runs, i) || last.min <= i <= last.max
  {
    var more := runs + [last];
    if InRuns(runs, i) {
      var k :| 0 <= k < |runs| && runs[k].min <= i <= runs[k].max;
      assert more[k] == runs[k];
    }
    if last.min <= i <= last.max {
      assert more[|runs|] == last;
    }
  }

  /** The runs are maximal, in ascending order, and make up the set. */
  ghost predicate RunsOf(s: set<nat>, runs: seq<Run>) {
    && (forall k | 0 <= k < |runs| :: runs[k].min <= runs[k].max)
    && (forall k, m | 0 <= k < m < |runs| :: runs[k].max + 1 < runs[m].min)
    && (forall i: nat :: i in s <==> InRuns(runs, i))
  }

  ghost function Between(min: nat, max: nat): (s: set<nat>)
    requires min <= max + 1
    ensures |s| == max + 1 - min && forall i: nat :: i in s <==> min <= i <= max
    decreases max + 1 - min
  {
    if min > max then {} else {min} + Between(min + 1, max)
  }

  lemma AddRun(s: set<nat>, start: nat, min: nat, max: nat, runs: seq<Run>)
    requires RunsOf(Under(s, start), runs) && NextRun(s, start, true, min, max)
    requires start > 0 ==> start - 1 !in s && forall r | r in runs :: r.max + 1 < start
    ensures RunsOf(Under(s, max + 2), runs + [Run(min, max)])
    ensures |Under(s, max + 2)| == |Under(s, start)| + (max - min + 1)
    ensures max + 1 !in s && forall r | r in runs + [Run(min, max)] :: r.max + 1 < max + 2
  {
    var last := Run(min, max);
    var more := runs + [last];
    UnderRun(s, start, min, max);
    if start == 0 {
      assert Under(s, 0) == {};
      NoRuns(runs);
    }
    hide Under, InRuns;
    forall i: nat ensures i in Under(s, max + 2) <==> InRuns(more, i) {
      InMoreRuns(runs, last, i);
    }
    forall k, m | 0 <= k < m < |more| ensures more[k].max + 1 < more[m].min {
      if m == |runs| {
        assert runs[k] in runs;
      }
    }
  }

  lemma NoRuns(runs: seq<Run>)
    requires RunsOf({}, runs)
    ensures runs == []
  {
    assert runs != [] ==> InRuns(runs, runs[0].min);
  }

  lemma UnderRun(s: set<nat>, start: nat, min: nat, max: nat)
    requires start <= min <= max && max + 1 !in s
    requires forall i: nat | start <= i < min :: i !in s
    requires forall i: nat | min <= i <= max :: i in s
    ensures forall i: nat :: i in Under(s, max + 2) <==> i in Under(s, start) || min <= i <= max
    ensures |Under(s, max + 2)| == |Under(s, start)| + (max - min + 1)
  {
    assert Under(s, max + 2) == Under(s, start) + Between(min, max);
    assert Under(s, start) !! Between(min, max);
  }

  // ---------------------------------------------------------------- words and their bits

  lemma NoBit(words: seq<Word>, i: nat)
    requires forall k | 0 <= k < |words| :: words[k] == 0
    ensures !Bit(words, i)
  {
  }

  lemma TrimLast(before: seq<Word>, after: seq<Word>, bits: nat, mask: Word)
    requires 0 < |before| == (bits + 31) / 32 && MaskOk(bits, |before|, mask)
    requires after == before[|before| - 1 := And(before[|before| - 1], mask)]
    ensures forall i: nat :: Bit(after, i) <==> i < bits && Bit(before, i)
  {
    hide Nth, One, Lows, And;
    forall i: nat ensures Bit(after, i) <==> i < bits && Bit(before, i) {
      TrimBit(before[|before| - 1], mask, bits - 32 * (|before| - 1), i % 32);
    }
  }

  lemma TrimBit(w: Word, mask: Word, n: nat, k: nat)
    requires Lows(mask, n) && k < 32
    ensures Nth(And(w, mask), k) <==> k < n && Nth(w, k)
  {
    hide Nth;
    NthAnd(w, mask, k);
  }

  lemma NthAnd(a: Word, b: Word, k: nat)
    requires k < 32
    ensures Nth(a & b, k) <==> Nth(a, k) && Nth(b, k)
  {
    OneSingle(k);
    hide One, Single, Meets;
    AndSingle(a, b, One(k));
  }

  lemma NthOr(a: Word, p: Word, j: nat, k: nat)
    requires j < 32 && k < 32 && p == One(j)
    ensures Nth(a | p, k) <==> Nth(a, k) || k == j
  {
    OneSingle(j);
    OneSingle(k);
    hide One, Single, Meets;
    if j < k {
      OneOrder(j, k);
      OrOther(a, p, One(k));
    } else if k < j {
      OneOrder(k, j);
      OrOther(a, p, One(k));
    } else {
      OrSame(a, p);
    }
  }

  lemma OrOther(a: Word, p: Word, q: Word)
    requires Single(p) && Single(q) && (p < q || q < p)
    ensures Meets(a | p, q) <==> Meets(a, q)
  {
  }

  lemma OrSame(a: Word, p: Word)
    requires Single(p)
    ensures Meets(a | p, p)
  {
  }

  lemma SetOne(before: seq<Word>, after: seq<Word>, i: nat)
    requires i / 32 < |before| && after == before[i / 32 := before[i / 32] | One(i % 32)]
    ensures forall j: nat :: Bit(after, j) <==> Bit(before, j) || j == i
  {
    hide Nth, One;
    forall j: nat ensures Bit(after, j) <==> Bit(before, j) || j == i {
      NthOr(before[i / 32], One(i % 32), i % 32, j % 32);
    }
  }

  lemma NthNot(a: Word, k: nat)
    requires k < 32
    ensures Nth(Flip(a), k) <==> !Nth(a, k)
  {
    OneSingle(k);
    hide One, Single, Meets, Flip;
    NotSingle(a, One(k));
  }

  lemma FlipWord(w: Word)
    ensures forall k: nat | k < 32 :: Nth(Flip(w), k) <==> !Nth(w, k)
  {
    hide Nth, Flip;
    forall k: nat | k < 32 ensures Nth(Flip(w), k) <==> !Nth(w, k) {
      NthNot(w, k);
    }
  }

  lemma NthMeets(w: Word, k: nat)
    requires k < 32
    ensures Nth(w, k) <==> Meets(w, One(k))
  {
  }

  lemma ClearWord(w: Word)
    requires w == 0
    ensures forall k: nat | k < 32 :: !Nth(w, k)
  {
  }

  lemma WholeWord(words: seq<Word>, o: nat, clear: bool)
    requires o < |words| && (if clear then Flip(words[o]) else words[o]) == 0
    ensures forall i: nat | 32 * o <= i < 32 * (o + 1) :: Bit(words, i) == clear
  {
    hide Nth, One, Flip;
    ClearWord(if clear then Flip(words[o]) else words[o]);
    forall i: nat | 32 * o <= i < 32 * (o + 1) ensures Bit(words, i) == clear {
      assert i / 32 == o;
      NthNot(words[o], i % 32);
    }
  }

  lemma RestSet(words: seq<Word>, o: nat, v: Word, from: nat)
    requires v == 0 && ClearIn(words, o, v, from)
    ensures forall i: nat | 32 * o + from <= i < 32 * (o + 1) :: Bit(words, i)
  {
    hide Bit;
    ClearWord(v);
    forall i: nat | 32 * o + from <= i < 32 * (o + 1) ensures Bit(words, i) {
      assert !Nth(v, i - 32 * o) && Bit(words, 32 * o + (i - 32 * o));
    }
  }

  lemma PastEnd(words: seq<Word>, i: nat)
    requires i >= 32 * |words|
    ensures !Bit(words, i)
  {
  }

  lemma BitRange(words: seq<Word>, i: nat)
    requires Bit(words, i)
    ensures i / 32 < |words|
  {
  }

  /** From bit `from` on, the set bits of `v` are the clear bits of word `o`. Past the end all bits are clear. */
  ghost predicate ClearIn(words: seq<Word>, o: nat, v: Word, from: nat) {
    && (forall k: nat | k < 32 :: Nth(v, k) ==> k >= from && !Bit(words, 32 * o + k))
    && (forall k: nat | from <= k < 32 && !Nth(v, k) :: Bit(words, 32 * o + k))
  }

  lemma BitAt(words: seq<Word>, o: nat, k: nat)
    requires o < |words| && k < 32
    ensures Bit(words, 32 * o + k) <==> Nth(words[o], k)
  {
    assert (32 * o + k) / 32 == o && (32 * o + k) % 32 == k;
  }

  lemma ClearWith(words: seq<Word>, o: nat, v: Word, from: nat)
    requires o < |words| && forall k: nat | k < 32 :: Nth(v, k) <==> k >= from && !Nth(words[o], k)
    ensures ClearIn(words, o, v, from)
  {
    hide Nth, Bit;
    forall k: nat | k < 32 ensures Nth(v, k) ==> k >= from && !Bit(words, 32 * o + k) {
      BitAt(words, o, k);
    }
    forall k: nat | from <= k < 32 && !Nth(v, k) ensures Bit(words, 32 * o + k) {
      BitAt(words, o, k);
    }
  }

  lemma ClearAfter(words: seq<Word>, min: nat, v: Word)
    requires min / 32 < |words| && KeepsAbove(Flip(words[min / 32]), v, min % 32)
    ensures ClearIn(words, min / 32, v, min % 32 + 1)
  {
    hide Nth, ClearIn, Flip;
    FlipWord(words[min / 32]);
    ClearWith(words, min / 32, v, min % 32 + 1);
  }

  lemma ClearAll(words: seq<Word>, o: nat, v: Word)
    requires o < |words| && v == Flip(words[o])
    ensures ClearIn(words, o, v, 0)
  {
    hide Nth, ClearIn, Flip;
    FlipWord(words[o]);
    ClearWith(words, o, v, 0);
  }

  /** At the end the first bit stands for a clear one. */
  lemma LowestOne(n: nat)
    requires n < 32 && Nth(1, n) && forall m: nat | m < n :: !Nth(1, m)
    ensures n == 0
  {
    LowBit(1);
  }

  /** A run of set bits up to word `o`, and its first clear bit there. */
  lemma RunFound(words: seq<Word>, min: nat, o: nat, v: Word, from: nat, n: nat)
    requires ClearIn(words, o, v, from) && min < 32 * o + from && from <= 32
    requires forall i: nat | min <= i < 32 * o + from :: Bit(words, i)
    requires n < 32 && Nth(v, n) && forall m: nat | m < n :: !Nth(v, m)
    ensures from <= n && !Bit(words, 32 * o + n)
    ensures forall i: nat | min <= i < 32 * o + n :: Bit(words, i)
  {
    hide Nth, Bit;
    forall i: nat | 32 * o + from <= i < 32 * o + n ensures Bit(words, i) {
      assert !Nth(v, i - 32 * o) && Bit(words, 32 * o + (i - 32 * o));
    }
  }

  /** Only the bits above bit `n` are kept. */
  ghost predicate KeepsAbove(w: Word, v: Word, n: nat) {
    forall k: nat | k < 32 :: Nth(v, k) <==> k > n && Nth(w, k)
  }

  lemma AboveBits(w: Word, v: Word, n: nat)
    requires n < 32 && v == w & Above(One(n))
    ensures KeepsAbove(w, v, n)
  {
    hide Nth, One, Above;
    forall k: nat | k < 32 ensures Nth(v, k) <==> k > n && Nth(w, k) {
      AboveBit(w, Above(One(n)), n, k);
    }
  }

  lemma AboveBit(w: Word, m: Word, n: nat, k: nat)
    requires n < 32 && k < 32 && m == Above(One(n))
    ensures Nth(w & m, k) <==> k > n && Nth(w, k)
  {
    hide *;
    NthAnd(w, m, k);
    NthAbove(n, k);
  }

  lemma NthAbove(n: nat, k: nat)
    requires n < 32 && k < 32
    ensures Nth(Above(One(n)), k) <==> k > n
  {
    OneSingle(n);
    OneSingle(k);
    hide One, Single, Above, Meets;
    if k < n {
      OneOrder(k, n);
      AboveLow(One(n), One(k));
    } else if k > n {
      OneOrder(n, k);
      AboveHigh(One(n), One(k));
    } else {
      AboveLow(One(n), One(k));
    }
  }
}
