/** The stack of pending tokens, sorted so that the tokens ending soonest are on top. */
module Alternatives {
  import opened Derivations

  /** A token that was accepted at the Earley set of earleme `start`. */
  datatype Alternative = Alternative(symbol: nat, start: nat, end: nat, value: int)

  function Key(a: Alternative): Token {
    Token(a.symbol, a.start, a.end)
  }

  /** Later ends first, then lower symbols, then earlier starts; values do not count. */
  function Compare(a: Alternative, b: Alternative): int {
    if b.end != a.end then b.end - a.end
    else if a.symbol != b.symbol then a.symbol - b.symbol
    else a.start - b.start
  }

  ghost predicate Sorted(s: seq<Alternative>) {
    forall p, q | 0 <= p < q < |s| :: Compare(s[p], s[q]) < 0
  }

  ghost predicate HasKey(s: seq<Alternative>, t: Token) {
    exists k :: 0 <= k < |s| && Key(s[k]) == t
  }

  lemma CompareIsAnOrder(a: Alternative, b: Alternative, c: Alternative)
    ensures Compare(a, b) == 0 <==> Key(a) == Key(b)
    ensures Compare(a, b) < 0 <==> Compare(b, a) > 0
    ensures Compare(a, b) < 0 && Compare(b, c) <= 0 ==> Compare(a, c) < 0
  {
  }

  /** Where `a` belongs, or -1 if a token with its key is already there. */
  method InsertionPoint(s: seq<Alternative>, a: Alternative) returns (point: int)
    requires Sorted(s)
    ensures point >= -1 && (point == -1 <==> HasKey(s, Key(a)))
    ensures point != -1 ==>
              && 0 <= point <= |s|
              && (forall k | 0 <= k < point :: Compare(s[k], a) < 0)
              && (forall k | point <= k < |s| :: Compare(a, s[k]) < 0)
  {
    var hi, lo := |s| - 1, 0;
    if hi < 0 {
      return 0;
    }
    while true
      invariant 0 <= lo <= hi < |s|
      invariant forall k | 0 <= k < lo :: Compare(s[k], a) < 0
      invariant forall k | hi < k < |s| :: Compare(a, s[k]) < 0
      decreases hi - lo
    {
      var trial := lo + (hi - lo) / 2;
      var outcome := Compare(a, s[trial]);
      if outcome == 0 {
        assert Key(s[trial]) == Key(a);
        return -1;
      }
      forall k | 0 <= k < |s|
        ensures k < trial && outcome > 0 ==> Compare(s[k], a) < 0
        ensures k > trial && outcome < 0 ==> Compare(a, s[k]) < 0
      {
        CompareIsAnOrder(s[k], s[trial], a);
        CompareIsAnOrder(a, s[trial], s[k]);
      }
      if outcome > 0 {
        lo := trial + 1;
      } else {
        hi := trial - 1;
      }
      if hi < lo {
        return if outcome > 0 then trial + 1 else trial;
      }
    }
  }

  /** Insertion keeps the order, adds exactly the new token, and refuses duplicates. */
  method Insert(s: seq<Alternative>, a: Alternative) returns (s': seq<Alternative>, point: int)
    requires Sorted(s)
    ensures Sorted(s')
    ensures point >= -1 && (point == -1 <==> HasKey(s, Key(a)))
    ensures point == -1 ==> s' == s
    ensures point != -1 ==> multiset(s') == multiset(s) + multiset{a}
    ensures point != -1 ==> forall b :: b in s' <==> b == a || b in s
  {
    point := InsertionPoint(s, a);
    if point < 0 {
      return s, point;
    }
    // The source grows the stack by one and shifts everything from the insertion point upward.
    s' := s[..point] + [a] + s[point..];
    assert s == s[..point] + s[point..];
  }

  /** The order puts the tokens with the least end on top. */
  lemma TopEndsFirst(s: seq<Alternative>, b: Alternative)
    requires Sorted(s) && b in s
    ensures s[|s| - 1].end <= b.end
  {
  }
}
