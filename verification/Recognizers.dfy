/** The recognizer: an Earley parser with Leo items, driven token by token. */
module Recognizers {
  import opened Grammars
  import opened Derivations
  import opened EarleySets
  import opened LeoWalks
  import opened PostdotItems
  import opened Psars
  import opened Alternatives
  import opened SourceLinks

  /** Earlemes and token lengths stay below a quarter of the largest C int. */
  const JEARLEME_THRESHOLD: nat := 536870911

  datatype Phase = BeforeInput | DuringInput | AfterInput

  datatype Code =
    | NoError | RecceStarted | RecceNotAcceptingInput | InvalidSymbolId | NoSuchSymbolId
    | TokenLengthLeZero | TokenTooLong | TokenIsNotTerminal | SymbolValuedConflict | InaccessibleToken
    | NoTokenExpectedHere | UnexpectedTokenId | ParseTooLong | DuplicateToken | ParseExhausted

  /** What closing an earleme did: failed, found no token ending there, or made an Earley set. */
  datatype Outcome = Failed(code: Code) | NoSet | SetMade

  /** External symbols and the internal symbols they stand for. Every symbol is valued. */
  datatype Lexicon = Lexicon(xsyCount: nat, nsyOf: map<nat, nat>, terminals: set<nat>)

  ghost predicate LexiconOk(g: Grammar, lex: Lexicon) {
    forall x | x in lex.nsyOf :: lex.nsyOf[x] < g.symbolCount
  }

  function TerminalNsys(lex: Lexicon): set<nat> {
    set x | x in lex.nsyOf && x in lex.terminals :: lex.nsyOf[x]
  }

  /** Only terminals are ever read. */
  ghost predicate TerminalsOnly(lex: Lexicon, ts: set<Token>) {
    forall t | t in ts :: t.symbol in TerminalNsys(lex)
  }

  function FirstPim(sets: Sets, i: nat, a: nat): seq<Pim>
    requires i in sets
  {
    if a in sets[i].postdot then sets[i].postdot[a] else []
  }

  // ---------------------------------------------------------------- the state between calls

  ghost predicate EndsAt(ts: set<Token>, i: nat) {
    exists t :: t in ts && t.end == i
  }

  /** The pending stack holds exactly the accepted tokens that end after the current earleme. */
  ghost predicate TokensOk(ts: set<Token>, sets: Sets, alts: seq<Alternative>, current: nat, furthest: nat) {
    && Sorted(alts)
    && (forall t | t in ts ::
          && t.start < t.end <= furthest && t.start in sets && t.symbol in sets[t.start].postdot
          && (t.end > current ==> HasKey(alts, t)))
    && (forall a | a in alts :: Key(a) in ts && a.end > current)
  }

  /** There is an Earley set at 0 and wherever an accepted token has ended, and nowhere else. */
  ghost predicate SetKeysOk(ts: set<Token>, sets: Sets, current: nat, latest: nat) {
    && (forall i: nat :: i in sets <==> i == 0 || (i <= current && EndsAt(ts, i)))
    && latest in sets
    && (forall i | i in sets :: i <= latest)
  }

  ghost predicate Resting(g: Grammar, ts: set<Token>, sets: Sets, alts: seq<Alternative>, current: nat, latest: nat,
      furthest: nat)
  {
    && SetsOk(g, ts, sets, current + 1)
    && TokensOk(ts, sets, alts, current, furthest)
    && SetKeysOk(ts, sets, current, latest)
  }

  ghost predicate AllNoLims(sets: Sets) {
    forall j | j in sets :: NoLims(sets[j].postdot)
  }

  /** One more set whose Leo items are exact, at an earleme after the first. */
  lemma MemoMore(g: Grammar, sets: Sets, useLeo: bool, j: nat, items: seq<Item>, postdot: Postdots)
    requires MemoExact(g, sets, useLeo) && j > 0
    requires forall a: nat :: HasLim(postdot, a) <==> useLeo && Eligible(g, items, a)
    ensures MemoExact(g, sets[j := EarleySet(items, postdot)], useLeo)
  {
  }

  /** No set holds an item twice. */
  ghost predicate AllDistinct(sets: Sets) {
    forall j | j in sets :: Distinct(sets[j].items)
  }

  lemma DistinctMore(sets: Sets, j: nat, items: seq<Item>, postdot: Postdots)
    requires AllDistinct(sets) && Distinct(items)
    ensures AllDistinct(sets[j := EarleySet(items, postdot)])
  {
  }

  lemma MemoFirst(g: Grammar, sets: Sets, useLeo: bool)
    requires sets.Keys == {0} && NoLims(sets[0].postdot)
    ensures MemoExact(g, sets, useLeo)
  {
  }

  lemma NothingMarked(postdot: Postdots)
    requires forall a: nat :: !HasLim(postdot, a)
    ensures NoLims(postdot)
  {
  }

  lemma MemoOff(g: Grammar, sets: Sets)
    requires MemoExact(g, sets, false)
    ensures AllNoLims(sets)
  {
  }

  // ---------------------------------------------------------------- facts about a set under construction

  ghost predicate Advanced(g: Grammar, items: seq<Item>, a: nat, x: Item) {
    exists y :: y in items && PostdotIs(g, y, a) && x == Next(y)
  }

  ghost function Universe(g: Grammar, j: nat): set<Item> {
    set r: nat, d: nat, o: nat | r < |g.irls| && d <= |g.irls[r].rhs| && o <= j :: Item(r, d, o)
  }

  ghost function Members(work: seq<Item>): set<Item> {
    set x | x in work
  }

  /** Items that came from scanning or completion lie strictly behind the current earleme. */
  ghost predicate Kernel(g: Grammar, ts: set<Token>, j: nat, x: Item) {
    Valid(g, ts, x, j) && x.dot > 0
  }

  ghost predicate AllKernel(g: Grammar, ts: set<Token>, j: nat, work: seq<Item>) {
    forall x | x in work :: Kernel(g, ts, j, x)
  }

  /** Every completed item is either waiting on the stack or has had its effects added. */
  ghost predicate CompletionsOk(g: Grammar, sets: Sets, work: seq<Item>, stack: seq<Item>) {
    && (forall x | x in stack :: x in work && InRange(g, x) && IsComplete(g, x))
    && (forall x, a: nat | x in work && Completes(g, x, a) :: x in stack || CompletionDone(g, sets, work, x, a))
  }

  lemma DoneGrows(g: Grammar, sets: Sets, work: seq<Item>, work': seq<Item>, x: Item, a: nat)
    requires CompletionDone(g, sets, work, x, a) && work <= work'
    ensures CompletionDone(g, sets, work', x, a)
  {
  }

  lemma MembersGrow(g: Grammar, j: nat, work: seq<Item>, work': seq<Item>)
    requires work <= work' && work != work' && Distinct(work')
    requires forall x | x in work' :: InRange(g, x) && x.origin <= j
    ensures Universe(g, j) - Members(work') < Universe(g, j) - Members(work)
  {
    var x := work'[|work|];
    assert x in work' && x in Universe(g, j);
    assert forall k | 0 <= k < |work| :: work[k] == work'[k] != x;
    assert Members(work) <= Members(work');
    assert x in Members(work') - Members(work);
  }

  // ---------------------------------------------------------------- scanning

  ghost predicate ScanDone(g: Grammar, items: seq<Item>, a: nat, work: seq<Item>) {
    forall y | y in items && PostdotIs(g, y, a) :: Next(y) in work
  }

  lemma PimsCoverItems(g: Grammar, items: seq<Item>, postdot: Postdots, a: nat, pims: seq<Pim>, work: seq<Item>)
    requires IndexOk(g, items, postdot) && pims == if a in postdot then postdot[a] else []
    requires forall k | 0 <= k < |pims| && pims[k].YimPim? :: Next(pims[k].item) in work
    ensures ScanDone(g, items, a, work)
  {
    forall y | y in items && PostdotIs(g, y, a) ensures Next(y) in work {
      assert YimPim(y) in pims;
    }
  }

  lemma PimIsAdvance(g: Grammar, items: seq<Item>, postdot: Postdots, a: nat, k: nat)
    requires IndexOk(g, items, postdot) && a in postdot && k < |postdot[a]| && postdot[a][k].YimPim?
    ensures postdot[a][k].item in items && PostdotIs(g, postdot[a][k].item, a)
    ensures Advanced(g, items, a, Next(postdot[a][k].item))
  {
    assert PimsOk(g, items, a, postdot[a]);
  }

  lemma AdvancedByToken(g: Grammar, ts: set<Token>, sets: Sets, n: nat, t: Token, x: Item)
    requires RulesOk(g) && SetsOk(g, ts, sets, n) && t in ts && t.start < t.end && t.start in sets
    requires Advanced(g, sets[t.start].items, t.symbol, x)
    ensures Kernel(g, ts, t.end, x)
  {
    assert SetOk(g, ts, sets, t.start);
    var y :| y in sets[t.start].items && PostdotIs(g, y, t.symbol) && x == Next(y);
    ValidScan(g, ts, y, t.start, t.end);
  }

  /** The pending tokens above position `n` have all been scanned at `j`. */
  ghost predicate ScannedFrom(g: Grammar, sets: Sets, alts: seq<Alternative>, n: nat, j: nat, work: seq<Item>) {
    forall q | n <= q < |alts| ::
      alts[q].end == j && alts[q].start in sets && ScanDone(g, sets[alts[q].start].items, alts[q].symbol, work)
  }

  lemma ScannedStep(g: Grammar, sets: Sets, alts: seq<Alternative>, n: nat, j: nat, work: seq<Item>, work': seq<Item>)
    requires n < |alts| && ScannedFrom(g, sets, alts, n + 1, j, work) && work <= work'
    requires alts[n].end == j && alts[n].start in sets && ScanDone(g, sets[alts[n].start].items, alts[n].symbol, work')
    ensures ScannedFrom(g, sets, alts, n, j, work')
  {
  }

  /** Popping stops exactly when everything ending at `j` is gone. */
  lemma AllScanned(g: Grammar, ts: set<Token>, sets: Sets, alts: seq<Alternative>, n: nat, j: nat, furthest: nat,
      work: seq<Item>)
    requires j > 0 && TokensOk(ts, sets, alts, j - 1, furthest) && n <= |alts|
    requires ScannedFrom(g, sets, alts, n, j, work)
    requires n > 0 ==> alts[n - 1].end > j
    ensures ScanClosed(g, ts, sets, j, work)
    ensures TokensOk(ts, sets, alts[..n], j, furthest)
  {
    forall q | 0 <= q < n ensures alts[q].end > j {
      assert q < n - 1 ==> Compare(alts[q], alts[n - 1]) < 0;
    }
    forall t | t in ts && t.end >= j
      ensures t.end == j ==> exists q :: n <= q < |alts| && Key(alts[q]) == t
      ensures t.end > j ==> HasKey(alts[..n], t)
    {
      var q :| 0 <= q < |alts| && Key(alts[q]) == t;
      if q < n {
        assert Key(alts[..n][q]) == t;
      } else {
        assert alts[q].end == j;
      }
    }
    forall t, y | t in ts && t.end == j && t.start in sets && y in sets[t.start].items && PostdotIs(g, y, t.symbol)
      ensures Next(y) in work
    {
      var q :| n <= q < |alts| && Key(alts[q]) == t;
      assert ScanDone(g, sets[alts[q].start].items, alts[q].symbol, work);
    }
  }

  // ---------------------------------------------------------------- source links

  /** Every step by these tokens and completions is linked, once, and every item has a link. */
  ghost predicate SoFar(g: Grammar, sets: Sets, srcs: SourceMap, work: seq<Item>, seen: set<Via>) {
    Recorded(g, sets, srcs, seen) && Once(srcs) && Tracks(srcs, work)
  }

  ghost predicate DistinctPims(pims: seq<Pim>) {
    forall m, n | 0 <= m < n < |pims| :: pims[m] != pims[n]
  }

  lemma PimsDistinct(g: Grammar, items: seq<Item>, postdot: Postdots, a: nat)
    requires IndexOk(g, items, postdot)
    ensures DistinctPims(if a in postdot then postdot[a] else [])
  {
    if a in postdot {
      assert PimsOk(g, items, a, postdot[a]);
    }
  }

  lemma SoFarParts(g: Grammar, sets: Sets, srcs: SourceMap, work: seq<Item>, seen: set<Via>, via: Via)
    requires SoFar(g, sets, srcs, work, seen)
    ensures Recorded(g, sets, srcs, seen) && Once(srcs) && Tracks(srcs, work) && (via !in seen ==> Unseen(srcs, via))
  {
    if via !in seen {
      NewVia(g, sets, srcs, seen, via);
    }
  }

  lemma PartlyMore(before: SourceMap, srcs: SourceMap, via: Via, pims: seq<Pim>, k: nat)
    requires Partly(before, srcs, via, pims, k) && Unseen(before, via) && Once(srcs) && k < |pims| && DistinctPims(pims)
    ensures pims[k].YimPim? ==>
              var y := pims[k].item;
              && Once(Add(srcs, Next(y), Link(Some(y), via)))
              && Partly(before, Add(srcs, Next(y), Link(Some(y), via)), via, pims, k + 1)
    ensures pims[k].LimPim? ==> Partly(before, srcs, via, pims, k + 1)
  {
    hide Partly, Once, Add, Unseen;
    PartlyNext(before, srcs, via, pims, k);
  }

  lemma SoFarStep(g: Grammar, sets: Sets, before: SourceMap, srcs: SourceMap, work: seq<Item>, seen: set<Via>, via: Via)
    requires Recorded(g, sets, before, seen) && AddsVia(g, sets, before, srcs, via) && Once(srcs) && Tracks(srcs, work)
    ensures SoFar(g, sets, srcs, work, seen + {via})
  {
    RecordedStep(g, sets, before, srcs, seen, via);
  }

  function TokenVia(a: Alternative): Via {
    OfToken(Key(a))
  }

  ghost function ViasFrom(alts: seq<Alternative>, n: nat): set<Via> {
    set q | 0 <= n <= q < |alts| :: TokenVia(alts[q])
  }

  lemma NothingSoFar(g: Grammar, sets: Sets, alts: seq<Alternative>)
    ensures SoFar(g, sets, map[], [], ViasFrom(alts, |alts|))
  {
    assert ViasFrom(alts, |alts|) == {};
    RecordedNothing(g, sets);
  }

  lemma NextVia(alts: seq<Alternative>, n: nat)
    requires Sorted(alts) && n < |alts|
    ensures TokenVia(alts[n]) !in ViasFrom(alts, n + 1)
    ensures ViasFrom(alts, n) == ViasFrom(alts, n + 1) + {TokenVia(alts[n])}
  {
    forall q | n + 1 <= q < |alts| ensures Key(alts[q]) != Key(alts[n]) {
      assert Compare(alts[n], alts[q]) < 0;
    }
  }

  ghost function TokenVias(ts: set<Token>, j: nat): set<Via> {
    set t | t in ts && t.end == j :: OfToken(t)
  }

  /** The tokens scanned are the tokens that end here. */
  lemma ViasScanned(g: Grammar, ts: set<Token>, sets: Sets, alts: seq<Alternative>, n: nat, j: nat, furthest: nat,
      work: seq<Item>)
    requires j > 0 && TokensOk(ts, sets, alts, j - 1, furthest) && n <= |alts|
    requires ScannedFrom(g, sets, alts, n, j, work)
    requires n > 0 ==> alts[n - 1].end > j
    ensures ViasFrom(alts, n) == TokenVias(ts, j)
  {
    hide ScanDone;
    forall q | 0 <= q < n ensures alts[q].end > j {
      assert q < n - 1 ==> Compare(alts[q], alts[n - 1]) < 0;
    }
    forall t | t in ts && t.end == j ensures OfToken(t) in ViasFrom(alts, n) {
      var q :| 0 <= q < |alts| && Key(alts[q]) == t;
      assert q >= n && TokenVia(alts[q]) == OfToken(t);
    }
    forall via | via in ViasFrom(alts, n) ensures via in TokenVias(ts, j) {
      var q :| n <= q < |alts| && TokenVia(alts[q]) == via;
      assert alts[q] in alts && Key(alts[q]) in ts;
    }
  }

  ghost function ItemVias(items: set<Item>): set<Via> {
    set x | x in items :: OfItem(x)
  }

  lemma MoreItemVias(items: set<Item>, x: Item)
    requires x !in items
    ensures ItemVias(items + {x}) == ItemVias(items) + {OfItem(x)} && OfItem(x) !in ItemVias(items)
  {
    assert forall y | y in items :: OfItem(y) in ItemVias(items);
  }

  /** Every completed item is on the stack, once, or has been dealt with, but not both. */
  ghost predicate StackExact(g: Grammar, work: seq<Item>, stack: seq<Item>, done: set<Item>) {
    && (forall p, q | 0 <= p < q < |stack| :: stack[p] != stack[q])
    && (forall x | x in stack :: x !in done)
    && (forall x :: x in work && InRange(g, x) && IsComplete(g, x) <==> x in stack || x in done)
  }

  lemma ExactPopped(g: Grammar, work0: seq<Item>, stack0: seq<Item>, cause: Item, done: set<Item>, work: seq<Item>,
      stack: seq<Item>)
    requires StackExact(g, work0, stack0 + [cause], done) && Stacked(g, work0, stack0, work, stack)
    ensures StackExact(g, work, stack, done + {cause}) && cause !in done
  {
    var all := stack0 + [cause];
    assert all[|stack0|] == cause;
    forall p | 0 <= p < |stack0| ensures stack[p] == stack0[p] == all[p] && stack[p] in all && stack[p] != cause
        && stack[p] in work0 {
      assert all[p] in all;
    }
    forall x ensures x in work && InRange(g, x) && IsComplete(g, x) <==> x in stack || x in done + {cause} {
      if x in all {
        assert x in work0 && x in work;
      }
      if x in work && InRange(g, x) && IsComplete(g, x) && x in work0 && x !in done {
        assert x in all;
      }
      if x in done {
        assert x in work0;
      }
    }
    forall x | x in stack ensures x !in done + {cause} {
      var p :| 0 <= p < |stack| && stack[p] == x;
      assert x in done ==> x in work0;
      assert cause in all && cause in work0;
    }
  }

  lemma NoItemVias()
    ensures ItemVias({}) == {}
  {
  }

  lemma NotDone(g: Grammar, work: seq<Item>, stack0: seq<Item>, cause: Item, ts: set<Token>, j: nat, done: set<Item>)
    requires StackExact(g, work, stack0 + [cause], done)
    ensures cause !in done && OfItem(cause) !in TokenVias(ts, j) + ItemVias(done)
    ensures ItemVias(done + {cause}) == ItemVias(done) + {OfItem(cause)}
  {
    assert cause in stack0 + [cause];
    MoreItemVias(done, cause);
  }

  lemma StackedSame(g: Grammar, work0: seq<Item>, stack0: seq<Item>, work: seq<Item>, stack: seq<Item>)
    requires Stacked(g, work0, stack0, work, stack)
    ensures work0 <= work && (work == work0 ==> stack == stack0)
  {
  }

  ghost function Completed(g: Grammar, work: seq<Item>): set<Item> {
    set x | x in work && InRange(g, x) && IsComplete(g, x)
  }

  lemma NothingStacked(g: Grammar, work: seq<Item>, done: set<Item>)
    requires StackExact(g, work, [], done)
    ensures done == Completed(g, work)
  {
  }

  /** All that moves a dot into the set at `j`. */
  ghost function AllVias(g: Grammar, ts: set<Token>, j: nat, work: seq<Item>): set<Via> {
    TokenVias(ts, j) + ItemVias(Completed(g, work))
  }

  lemma ViasOf(g: Grammar, ts: set<Token>, j: nat, work: seq<Item>, via: Via)
    ensures via in AllVias(g, ts, j, work) <==> IsVia(g, ts, j, work, via)
  {
  }

  /** A step into a set looks only at earlier sets. */
  lemma StepLocal(g: Grammar, sets: Sets, j: nat, s: EarleySet, via: Via, x: Item, p: Option<Item>)
    requires via.OfToken? ==> via.token.start != j
    requires via.OfItem? ==> via.item.origin != j
    ensures StepTrue(g, sets[j := s], via, x, p) <==> StepTrue(g, sets, via, x, p)
  {
  }

  lemma FinishedLinks(g: Grammar, ts: set<Token>, sets: Sets, j: nat, kernel: seq<Item>, work: seq<Item>, s: EarleySet,
      srcs: SourceMap)
    requires GrammarOk(g) && AllKernel(g, ts, j, kernel) && Expanding(g, kernel, |kernel|, j, work)
    requires forall t | t in ts :: t.start < t.end
    requires SoFar(g, sets, srcs, kernel, AllVias(g, ts, j, kernel))
    ensures LinksExact(g, ts, sets[j := s], j, work, srcs)
  {
    hide GrammarOk, StepTrue, Has, Once;
    KernelParts(g, ts, j, kernel);
    forall x | x in work && x !in kernel ensures x.dot == 0 && InRange(g, x) && !IsComplete(g, x) {
      PredictedItem(g, ts, j, kernel, x);
    }
    forall x: Item, l: Link ensures Has(srcs, x, l) <==>
        IsVia(g, ts, j, work, l.via) && StepTrue(g, sets[j := s], l.via, x, l.predecessor) {
      ViasOf(g, ts, j, kernel, l.via);
      assert IsVia(g, ts, j, work, l.via) <==> IsVia(g, ts, j, kernel, l.via);
      if IsVia(g, ts, j, kernel, l.via) {
        StepLocal(g, sets, j, s, l.via, x, l.predecessor);
      }
    }
  }

  lemma KernelParts(g: Grammar, ts: set<Token>, j: nat, kernel: seq<Item>)
    requires GrammarOk(g) && AllKernel(g, ts, j, kernel)
    ensures forall x | x in kernel :: x.dot > 0 && InRange(g, x) && x.origin < j
  {
    KernelInRange(g, ts, j, kernel);
    assert forall x | x in kernel :: Kernel(g, ts, j, x);
  }

  /** Finished sets keep their links when another set is made. */
  lemma LinksMove(g: Grammar, ts: set<Token>, sets: Sets, links: map<nat, SourceMap>, j: nat, s: EarleySet,
      srcs: SourceMap)
    requires RulesOk(g) && SetsOk(g, ts, sets, j) && LinksOk(g, ts, sets, links)
    requires forall t | t in ts :: t.start < t.end
    requires LinksExact(g, ts, sets[j := s], j, s.items, srcs)
    ensures LinksOk(g, ts, sets[j := s], links[j := srcs])
  {
    var more := sets[j := s];
    forall i | i in more && i > 0 && i != j ensures LinksExact(g, ts, more, i, more[i].items, links[i]) {
      EarlierSet(g, ts, sets, j, i);
      assert LinksExact(g, ts, sets, i, sets[i].items, links[i]);
      hide StepTrue, Has, Once;
      forall x: Item, l: Link
        ensures IsVia(g, ts, i, sets[i].items, l.via) && StepTrue(g, more, l.via, x, l.predecessor) <==>
                IsVia(g, ts, i, sets[i].items, l.via) && StepTrue(g, sets, l.via, x, l.predecessor)
      {
        if IsVia(g, ts, i, sets[i].items, l.via) {
          StepLocal(g, sets, j, s, l.via, x, l.predecessor);
        }
      }
    }
  }

  lemma EarlierSet(g: Grammar, ts: set<Token>, sets: Sets, j: nat, i: nat)
    requires RulesOk(g) && SetsOk(g, ts, sets, j) && i in sets
    ensures i < j && forall x | x in sets[i].items :: x.origin <= i
  {
    assert SetOk(g, ts, sets, i);
    forall x | x in sets[i].items ensures x.origin <= i {
      ValidInRange(g, ts, x, i);
    }
  }

  /** Nor do tokens still to be scanned matter to them. */
  lemma LinksKeep(g: Grammar, ts: set<Token>, sets: Sets, links: map<nat, SourceMap>, t: Token, n: nat)
    requires LinksOk(g, ts, sets, links) && t.end > n && forall i | i in sets :: i <= n
    ensures LinksOk(g, ts + {t}, sets, links)
  {
    forall i | i in sets && i > 0 ensures LinksExact(g, ts + {t}, sets, i, sets[i].items, links[i]) {
      assert LinksExact(g, ts, sets, i, sets[i].items, links[i]);
      hide StepTrue, Has, Once;
      assert forall via :: IsVia(g, ts + {t}, i, sets[i].items, via) <==> IsVia(g, ts, i, sets[i].items, via);
    }
  }

  // ---------------------------------------------------------------- completion

  lemma CompletionSound(g: Grammar, ts: set<Token>, sets: Sets, j: nat, cause: Item, k: nat)
    requires RulesOk(g) && SetsOk(g, ts, sets, j) && Kernel(g, ts, j, cause) && InRange(g, cause)
        && IsComplete(g, cause)
    ensures cause.origin in sets && cause.origin < j
    ensures IndexOk(g, sets[cause.origin].items, sets[cause.origin].postdot)
    ensures var pims := FirstPim(sets, cause.origin, Lhs(g, cause));
            k < |pims| ==>
              if pims[k].LimPim?
              then k == 0 && Populated(g, pims[k].lim) && Kernel(g, ts, j, TopItem(g, pims[k].lim))
              else InRange(g, pims[k].item) && Kernel(g, ts, j, Next(pims[k].item))
  {
    var i, a := cause.origin, Lhs(g, cause);
    ValidInRange(g, ts, cause, j);
    CauseHasWaiter(g, ts, sets, j, cause);
    assert SetOk(g, ts, sets, i);
    var pims := FirstPim(sets, i, a);
    if k < |pims| {
      assert PimsOk(g, sets[i].items, a, sets[i].postdot[a]);
      if pims[k].LimPim? {
        assert HasLim(sets[i].postdot, a);
        ValidLeo(g, ts, cause, pims[k].lim, j);
        assert TopItem(g, pims[k].lim).dot > 0;
      } else {
        PimIsAdvance(g, sets[i].items, sets[i].postdot, a, k);
        ValidComplete(g, ts, pims[k].item, cause, j);
      }
    }
  }

  lemma CauseHasWaiter(g: Grammar, ts: set<Token>, sets: Sets, j: nat, x: Item)
    requires RulesOk(g) && SetsOk(g, ts, sets, j) && x.origin < j && Predicted(g, ts, x.irl, x.origin)
    ensures x.origin in sets
  {
    var s :| Predicts(g, ts, x.irl, x.origin, s);
    assert Spans(g, ts, x.irl, 0, x.origin, x.origin, Nil);
    assert Valid(g, ts, Item(x.irl, 0, x.origin), x.origin);
    assert x.origin !in sets ==> NoItems(g, ts, x.origin);
  }

  lemma EffectsDone(g: Grammar, sets: Sets, work: seq<Item>, x: Item, a: nat)
    requires x.origin in sets && IndexOk(g, sets[x.origin].items, sets[x.origin].postdot)
    requires var pims := FirstPim(sets, x.origin, a);
             if pims != [] && pims[0].LimPim?
             then Populated(g, pims[0].lim) && TopItem(g, pims[0].lim) in work
             else forall k | 0 <= k < |pims| && pims[k].YimPim? :: Next(pims[k].item) in work
    ensures CompletionDone(g, sets, work, x, a)
  {
    var pims := FirstPim(sets, x.origin, a);
    if !(pims != [] && pims[0].LimPim?) {
      PimsCoverItems(g, sets[x.origin].items, sets[x.origin].postdot, a, pims, work);
      assert ScanDone(g, sets[x.origin].items, a, work);
    }
  }

  /** What assigning one effect does to the working set and the completion stack. */
  ghost predicate Stacked(g: Grammar, work0: seq<Item>, stack0: seq<Item>, work: seq<Item>, stack: seq<Item>) {
    && work0 <= work && stack0 <= stack
    && (forall x | x in stack :: x in stack0 || (x in work && InRange(g, x) && IsComplete(g, x)))
    && (forall x | x in work && InRange(g, x) && IsComplete(g, x) :: x in work0 || x in stack)
    && (work == work0 ==> stack == stack0)
    && (forall q | |stack0| <= q < |stack| ::
        stack[q] in work && stack[q] !in work0 && InRange(g, stack[q]) && IsComplete(g, stack[q]))
    && (forall p, q | |stack0| <= p < q < |stack| :: stack[p] != stack[q])
  }

  lemma StackedPush(g: Grammar, work0: seq<Item>, stack0: seq<Item>, work: seq<Item>, stack: seq<Item>, x: Item)
    requires Stacked(g, work0, stack0, work, stack) && InRange(g, x) && x !in work
    ensures Stacked(g, work0, stack0, work + [x], if IsComplete(g, x) then stack + [x] else stack)
  {
    var work', stack' := work + [x], if IsComplete(g, x) then stack + [x] else stack;
    forall y | y in work' && InRange(g, y) && IsComplete(g, y) ensures y in work0 || y in stack' {
      assert y in work || y == x;
    }
  }

  lemma PoppedOk(g: Grammar, sets: Sets, work0: seq<Item>, stack0: seq<Item>, cause: Item, work: seq<Item>,
      stack: seq<Item>)
    requires CompletionsOk(g, sets, work0, stack0 + [cause]) && Stacked(g, work0, stack0, work, stack)
    requires InRange(g, cause) && CompletionDone(g, sets, work, cause, Lhs(g, cause))
    ensures CompletionsOk(g, sets, work, stack)
  {
    forall x | x in stack ensures x in work && InRange(g, x) && IsComplete(g, x) {
      assert x in stack0 ==> x in stack0 + [cause];
    }
    forall x, a: nat | x in work && Completes(g, x, a) ensures x in stack || CompletionDone(g, sets, work, x, a) {
      if x in work0 {
        assert x in stack0 + [cause] || CompletionDone(g, sets, work0, x, a);
      }
    }
  }

  lemma KernelJoins(g: Grammar, ts: set<Token>, sets: Sets, j: nat, t: Token, work0: seq<Item>, work: seq<Item>)
    requires RulesOk(g) && SetsOk(g, ts, sets, j) && AllKernel(g, ts, j, work0)
    requires t in ts && t.start < t.end == j && t.start in sets
    requires forall x | x in work :: x in work0 || Advanced(g, sets[t.start].items, t.symbol, x)
    ensures AllKernel(g, ts, j, work)
  {
    forall x | x in work ensures Kernel(g, ts, j, x) {
      if x !in work0 {
        AdvancedByToken(g, ts, sets, j, t, x);
      }
    }
  }

  lemma IndexOfSet(g: Grammar, ts: set<Token>, sets: Sets, n: nat, i: nat)
    requires SetsOk(g, ts, sets, n) && i in sets
    ensures i < n && IndexOk(g, sets[i].items, sets[i].postdot)
  {
    assert SetOk(g, ts, sets, i);
  }

  lemma KernelInRange(g: Grammar, ts: set<Token>, j: nat, work: seq<Item>)
    requires RulesOk(g) && AllKernel(g, ts, j, work)
    ensures forall x | x in work :: InRange(g, x) && x.origin < j
  {
    forall x | x in work ensures InRange(g, x) && x.origin < j {
      assert Kernel(g, ts, j, x);
      ValidInRange(g, ts, x, j);
    }
  }

  lemma DistinctWork(psls: seq<Psl>, firstFree: nat, dotPsl: map<nat, nat>, j: nat, work: seq<Item>)
    requires PslInv(psls, firstFree, dotPsl, j, work)
    ensures Distinct(work)
  {
  }

  lemma StackedRefl(g: Grammar, work: seq<Item>, stack: seq<Item>)
    ensures Stacked(g, work, stack, work, stack)
  {
  }

  lemma EffectInRange(g: Grammar, ts: set<Token>, j: nat, x: Item)
    requires RulesOk(g) && Kernel(g, ts, j, x)
    ensures InRange(g, x)
  {
    ValidInRange(g, ts, x, j);
  }

  lemma StackFilled(g: Grammar, sets: Sets, work: seq<Item>, stack: seq<Item>)
    requires forall x | x in work :: InRange(g, x)
    requires forall x | x in stack :: x in work && InRange(g, x) && IsComplete(g, x)
    requires forall q | 0 <= q < |work| && IsComplete(g, work[q]) :: work[q] in stack
    ensures CompletionsOk(g, sets, work, stack)
  {
  }

  lemma StackTop(g: Grammar, sets: Sets, work: seq<Item>, stack: seq<Item>, cause: Item)
    requires CompletionsOk(g, sets, work, stack + [cause])
    ensures cause in work && InRange(g, cause) && IsComplete(g, cause)
  {
    assert cause in stack + [cause];
  }

  // ---------------------------------------------------------------- prediction

  lemma PostdotIsSymbol(g: Grammar, y: Item)
    requires RulesOk(g) && InRange(g, y) && !IsComplete(g, y)
    ensures Postdot(g, y) < g.symbolCount
  {
    assert g.irls[y.irl].rhs[y.dot] in g.irls[y.irl].rhs;
  }

  ghost predicate PredictedFrom(g: Grammar, work0: seq<Item>, j: nat, x: Item) {
    exists y :: y in work0 && PredictedBy(g, y, j, x)
  }

  ghost predicate PredictedBy(g: Grammar, y: Item, j: nat, x: Item) {
    && InRange(g, y) && !IsComplete(g, y) && Postdot(g, y) < |g.predictions|
    && x.irl in g.predictions[Postdot(g, y)] && x == Item(x.irl, 0, j)
  }

  ghost predicate PredictDone(g: Grammar, y: Item, j: nat, work: seq<Item>) {
    forall r | PredictedBy(g, y, j, Item(r, 0, j)) :: Item(r, 0, j) in work
  }

  ghost predicate Expanding(g: Grammar, work0: seq<Item>, n: nat, j: nat, work: seq<Item>) {
    && work0 <= work
    && n <= |work0|
    && (forall x | x in work :: x in work0 || PredictedFrom(g, work0, j, x))
    && (forall q | 0 <= q < n :: PredictDone(g, work0[q], j, work))
  }

  lemma ExpandOne(g: Grammar, work0: seq<Item>, n: nat, j: nat, work: seq<Item>, x: Item)
    requires Expanding(g, work0, n, j, work) && PredictedFrom(g, work0, j, x)
    ensures Expanding(g, work0, n, j, work + [x])
  {
    forall q | 0 <= q < n ensures PredictDone(g, work0[q], j, work + [x]) {
      assert PredictDone(g, work0[q], j, work);
    }
  }

  lemma ExpandNext(g: Grammar, work0: seq<Item>, n: nat, j: nat, work: seq<Item>)
    requires Expanding(g, work0, n, j, work) && n < |work0| && PredictDone(g, work0[n], j, work)
    ensures Expanding(g, work0, n + 1, j, work)
  {
  }

  lemma PredictedItem(g: Grammar, ts: set<Token>, j: nat, work0: seq<Item>, x: Item)
    requires GrammarOk(g) && AllKernel(g, ts, j, work0) && PredictedFrom(g, work0, j, x)
    ensures InRange(g, x) && x.dot == 0 && !IsComplete(g, x)
    ensures Derivations.Valid(g, ts, x, j)
    ensures forall r: nat | IsRule(g, r) && g.irls[r].lhs == Postdot(g, x) :: PredictedFrom(g, work0, j, Item(r, 0, j))
  {
    var y :| y in work0 && PredictedBy(g, y, j, x);
    assert Kernel(g, ts, j, y);
    var a := Postdot(g, y);
    PostdotIsSymbol(g, y);
    assert LeftReaches(g, a, x.irl);
    var chain: seq<nat> :| |chain| > 0 && LeftChain(g, chain) && g.irls[chain[0]].lhs == a
        && chain[|chain| - 1] == x.irl;
    ValidPredictions(g, ts, y, chain, j);
    forall r: nat | IsRule(g, r) && g.irls[r].lhs == Postdot(g, x) ensures PredictedFrom(g, work0, j, Item(r, 0, j)) {
      PredictionsAreClosed(g, a, x.irl, r);
      assert PredictedBy(g, y, j, Item(r, 0, j));
    }
  }

  lemma FromExpansion(g: Grammar, work0: seq<Item>, j: nat, work: seq<Item>, x: Item)
    requires Expanding(g, work0, |work0|, j, work) && PredictedFrom(g, work0, j, x)
    ensures x in work
  {
    var y :| y in work0 && PredictedBy(g, y, j, x);
    var q :| 0 <= q < |work0| && work0[q] == y;
    assert PredictDone(g, work0[q], j, work);
  }

  lemma PredictionCloses(g: Grammar, ts: set<Token>, j: nat, work0: seq<Item>, work: seq<Item>)
    requires GrammarOk(g) && AllKernel(g, ts, j, work0) && Expanding(g, work0, |work0|, j, work)
    ensures SetSound(g, ts, j, work) && PredictionClosed(g, j, work)
  {
    forall x | x in work ensures Derivations.Valid(g, ts, x, j) {
      if x in work0 {
        assert Kernel(g, ts, j, x);
      } else {
        PredictedItem(g, ts, j, work0, x);
      }
    }
    forall y, r: nat | y in work && IsRule(g, r) && PostdotIs(g, y, g.irls[r].lhs) ensures Item(r, 0, j) in work {
      if y in work0 {
        PredictionsHoldDirect(g, Postdot(g, y), r);
        PostdotIsSymbol(g, y);
        assert PredictedBy(g, y, j, Item(r, 0, j));
      } else {
        PredictedItem(g, ts, j, work0, y);
      }
      FromExpansion(g, work0, j, work, Item(r, 0, j));
    }
  }

  /** Prediction adds no completed items, so it leaves scanning and completion closed. */
  lemma PredictionKeeps(g: Grammar, ts: set<Token>, sets: Sets, j: nat, work0: seq<Item>, work: seq<Item>)
    requires GrammarOk(g) && AllKernel(g, ts, j, work0) && Expanding(g, work0, |work0|, j, work)
    requires ScanClosed(g, ts, sets, j, work0) && CompletionsOk(g, sets, work0, [])
    ensures ScanClosed(g, ts, sets, j, work) && CompletionClosed(g, sets, work)
  {
    forall x, a: nat | x in work && Completes(g, x, a) ensures CompletionDone(g, sets, work, x, a) {
      if x in work0 {
        DoneGrows(g, sets, work0, work, x, a);
      } else {
        PredictedItem(g, ts, j, work0, x);
      }
    }
    assert forall x | x in work0 :: x in work;
  }

  lemma WorkIsReady(g: Grammar, ts: set<Token>, sets: Sets, j: nat, work0: seq<Item>, work: seq<Item>)
    requires GrammarOk(g) && SetsOk(g, ts, sets, j) && j > 0
    requires AllKernel(g, ts, j, work0) && Expanding(g, work0, |work0|, j, work)
    requires ScanClosed(g, ts, sets, j, work0) && CompletionsOk(g, sets, work0, [])
    ensures Ready(g, ts, sets, j, work) && AllInRange(g, work)
  {
    PredictionCloses(g, ts, j, work0, work);
    PredictionKeeps(g, ts, sets, j, work0, work);
    ClosedIsComplete(g, ts, sets, j, work);
    SoundInRange(g, ts, j, work);
  }

  lemma SoundInRange(g: Grammar, ts: set<Token>, j: nat, work: seq<Item>)
    requires RulesOk(g) && SetSound(g, ts, j, work)
    ensures AllInRange(g, work)
  {
    forall x | x in work ensures InRange(g, x) {
      ValidInRange(g, ts, x, j);
    }
  }

  lemma ScanClosedGrows(g: Grammar, ts: set<Token>, sets: Sets, j: nat, work: seq<Item>, work': seq<Item>)
    requires ScanClosed(g, ts, sets, j, work) && work <= work'
    ensures ScanClosed(g, ts, sets, j, work')
  {
    assert forall x | x in work :: x in work';
  }

  // ---------------------------------------------------------------- closing an earleme

  /** Earley sets are never changed once they are finished. */
  ghost predicate KeepsSets(before: Sets, after: Sets) {
    forall i | i in before :: i in after && after[i] == before[i]
  }

  lemma NothingEnds(ts: set<Token>, sets: Sets, alts: seq<Alternative>, current: nat, furthest: nat)
    requires TokensOk(ts, sets, alts, current, furthest)
    requires current + 1 > furthest || alts == [] || alts[|alts| - 1].end != current + 1
    ensures !EndsAt(ts, current + 1)
  {
    assert alts != [] ==> alts[|alts| - 1] in alts;
    if EndsAt(ts, current + 1) {
      var t :| t in ts && t.end == current + 1;
      var k :| 0 <= k < |alts| && Key(alts[k]) == t;
      TopEndsFirst(alts, alts[k]);
    }
  }

  lemma TokensWait(ts: set<Token>, sets: Sets, alts: seq<Alternative>, current: nat, furthest: nat)
    requires TokensOk(ts, sets, alts, current, furthest) && !EndsAt(ts, current + 1)
    ensures TokensOk(ts, sets, alts, current + 1, furthest)
  {
    forall a | a in alts ensures a.end > current + 1 {
      assert Key(a) in ts;
    }
  }

  /** An earleme with nothing to scan. */
  lemma RestWithoutSet(g: Grammar, ts: set<Token>, sets: Sets, alts: seq<Alternative>, current: nat, latest: nat,
      furthest: nat)
    requires RulesOk(g) && Resting(g, ts, sets, alts, current, latest, furthest)
    requires current + 1 > furthest || alts == [] || alts[|alts| - 1].end != current + 1
    ensures Resting(g, ts, sets, alts, current + 1, latest, furthest)
    ensures !EndsAt(ts, current + 1)
  {
    hide RulesOk, SetOk, NoItems, TokensOk;
    NothingEnds(ts, sets, alts, current, furthest);
    TokensWait(ts, sets, alts, current, furthest);
    NoTokenNoItems(g, ts, current + 1);
  }

  lemma TokensMove(ts: set<Token>, sets: Sets, alts: seq<Alternative>, current: nat, furthest: nat, s: EarleySet)
    requires TokensOk(ts, sets, alts, current, furthest) && current !in sets
    ensures TokensOk(ts, sets[current := s], alts, current, furthest)
  {
  }

  lemma KeysMove(ts: set<Token>, sets: Sets, current: nat, latest: nat, s: EarleySet)
    requires SetKeysOk(ts, sets, current, latest) && EndsAt(ts, current + 1)
    ensures SetKeysOk(ts, sets[current + 1 := s], current + 1, current + 1)
    ensures current + 1 !in sets
  {
  }

  lemma RestWithSet(g: Grammar, ts: set<Token>, sets: Sets, alts0: seq<Alternative>, alts: seq<Alternative>,
                    current: nat, latest: nat, furthest: nat, work: seq<Item>, postdot: Postdots)
    requires GrammarOk(g) && Resting(g, ts, sets, alts0, current, latest, furthest)
    requires TokensOk(ts, sets, alts, current + 1, furthest)
    requires EndsAt(ts, current + 1)
    requires Ready(g, ts, sets, current + 1, work) && IndexOk(g, work, postdot)
    requires LimsOk(g, ts, View(sets, current + 1, work, postdot), current + 1)
    ensures Resting(g, ts, View(sets, current + 1, work, postdot), alts, current + 1, current + 1, furthest)
    ensures current + 1 !in sets
  {
    hide Ready, IndexOk, LimsOk, SetsOk, TokensOk, SetKeysOk;
    FinishedSetOk(g, ts, sets, current + 1, work, postdot);
    KeysMove(ts, sets, current, latest, EarleySet(work, postdot));
    TokensMove(ts, sets, alts, current + 1, furthest, EarleySet(work, postdot));
  }

  lemma KernelAllInRange(g: Grammar, ts: set<Token>, j: nat, work: seq<Item>)
    requires RulesOk(g) && AllKernel(g, ts, j, work)
    ensures AllInRange(g, work)
  {
    KernelInRange(g, ts, j, work);
  }

  lemma ExpandNone(g: Grammar, work0: seq<Item>, j: nat)
    ensures Expanding(g, work0, 0, j, work0)
  {
  }

  lemma PredictionList(g: Grammar, y: Item)
    requires GrammarOk(g) && InRange(g, y) && !IsComplete(g, y)
    ensures Postdot(g, y) < |g.predictions|
  {
    PostdotIsSymbol(g, y);
  }

  lemma FromList(g: Grammar, work0: seq<Item>, y: Item, j: nat, x: Item)
    requires y in work0 && PredictedBy(g, y, j, x)
    ensures PredictedFrom(g, work0, j, x)
  {
  }

  lemma RestingParts(g: Grammar, ts: set<Token>, sets: Sets, alts: seq<Alternative>, current: nat, latest: nat,
      furthest: nat)
    requires GrammarOk(g) && Resting(g, ts, sets, alts, current, latest, furthest)
    ensures RulesOk(g)
    ensures SetsOk(g, ts, sets, current + 1) && TokensOk(ts, sets, alts, current, furthest)
        && SetKeysOk(ts, sets, current, latest)
  {
  }

  lemma TopToken(ts: set<Token>, sets: Sets, alts: seq<Alternative>, current: nat, furthest: nat)
    requires TokensOk(ts, sets, alts, current, furthest) && alts != []
    ensures EndsAt(ts, alts[|alts| - 1].end)
  {
    var a := alts[|alts| - 1];
    assert a in alts && Key(a) in ts;
  }

  lemma NothingPending(ts: set<Token>, sets: Sets, alts: seq<Alternative>, current: nat, furthest: nat)
    requires TokensOk(ts, sets, alts, current, furthest)
    ensures alts == [] <==> !(exists t :: t in ts && t.end > current)
  {
    if alts != [] {
      assert alts[0] in alts && Key(alts[0]) in ts;
    }
  }

  lemma TokensForward(ts: set<Token>, sets: Sets, alts: seq<Alternative>, current: nat, furthest: nat)
    requires TokensOk(ts, sets, alts, current, furthest)
    ensures forall t | t in ts :: t.start < t.end
  {
  }

  lemma SetsBehind(g: Grammar, ts: set<Token>, sets: Sets, alts: seq<Alternative>, current: nat, latest: nat,
      furthest: nat)
    requires Resting(g, ts, sets, alts, current, latest, furthest)
    ensures forall i | i in sets :: i <= current
  {
  }

  lemma SameTokens(ts: set<Token>, t: Token)
    requires t in ts
    ensures ts + {t} == ts
  {
  }

  // ---------------------------------------------------------------- the first set

  ghost function AllRules(g: Grammar): set<nat> {
    set r: nat | r < |g.irls| && IsRule(g, r)
  }

  /** The worklist of set 0: every item's rule list has been worked off or is still on the stack. */
  ghost predicate Starting(g: Grammar, work: seq<Item>, seen: set<nat>, stack: seq<seq<nat>>) {
    && (forall x | x in work ::
        IsRule(g, x.irl) && x == Item(x.irl, 0, 0) && x.irl in seen && Derivations.Valid(g, {}, x, 0))
    && (forall r | r in seen :: Item(r, 0, 0) in work)
    && Item(g.start, 0, 0) in work
    && (forall x | x in work :: ListDone(g, x, work) || HasList(g, x, stack))
    && (forall k | 0 <= k < |stack| :: ListOk(g, stack[k]))
    && Distinct(work)
  }

  ghost predicate HasList(g: Grammar, x: Item, stack: seq<seq<nat>>) {
    && InRange(g, x) && !IsComplete(g, x) && Postdot(g, x) < |g.rulesByLhs|
    && g.rulesByLhs[Postdot(g, x)] in stack
  }

  ghost predicate ListDone(g: Grammar, x: Item, work: seq<Item>) {
    forall r: nat | IsRule(g, r) && PostdotIs(g, x, g.irls[r].lhs) :: Item(r, 0, 0) in work
  }

  /** Every rule of the list is predicted in set 0. */
  ghost predicate ListOk(g: Grammar, rules: seq<nat>) {
    forall k | 0 <= k < |rules| :: IsRule(g, rules[k]) && Derivations.Valid(g, {}, Item(rules[k], 0, 0), 0)
  }

  lemma ListIsOk(g: Grammar, x: Item)
    requires GrammarOk(g) && IsRule(g, x.irl) && x == Item(x.irl, 0, 0) && Derivations.Valid(g, {}, x, 0)
    ensures InRange(g, x) && !IsComplete(g, x) && Postdot(g, x) < |g.rulesByLhs|
    ensures ListOk(g, g.rulesByLhs[Postdot(g, x)])
  {
    PostdotIsSymbol(g, x);
    var rules := g.rulesByLhs[Postdot(g, x)];
    forall k | 0 <= k < |rules| ensures IsRule(g, rules[k]) && Derivations.Valid(g, {}, Item(rules[k], 0, 0), 0) {
      assert rules[k] in rules;
      ValidPredict(g, {}, x, rules[k], 0);
    }
  }

  lemma StartOk(g: Grammar)
    requires GrammarOk(g)
    ensures var x := Item(g.start, 0, 0);
            && InRange(g, x) && !IsComplete(g, x) && Postdot(g, x) < |g.rulesByLhs|
            && Starting(g, [x], {g.start}, [g.rulesByLhs[Postdot(g, x)]])
  {
    ValidStart(g, {});
    ListIsOk(g, Item(g.start, 0, 0));
  }

  lemma StartPop(g: Grammar, work: seq<Item>, seen: set<nat>, stack: seq<seq<nat>>, rules: seq<nat>)
    requires GrammarOk(g) && Starting(g, work, seen, stack + [rules])
    requires forall k | 0 <= k < |rules| :: rules[k] in seen
    ensures Starting(g, work, seen, stack)
  {
    forall x | x in work ensures ListDone(g, x, work) || HasList(g, x, stack) {
      assert ListDone(g, x, work) || HasList(g, x, stack + [rules]);
    }
    forall k | 0 <= k < |stack| ensures ListOk(g, stack[k]) {
      assert (stack + [rules])[k] == stack[k];
    }
  }

  lemma StartPush(g: Grammar, work: seq<Item>, seen: set<nat>, stack: seq<seq<nat>>, rules: seq<nat>, r: nat)
    requires GrammarOk(g) && Starting(g, work, seen, stack + [rules]) && r in rules && r !in seen
    ensures var x := Item(r, 0, 0);
            && InRange(g, x) && !IsComplete(g, x) && Postdot(g, x) < |g.rulesByLhs|
            && Starting(g, work + [x], seen + {r}, stack + [g.rulesByLhs[Postdot(g, x)]] + [rules])
  {
    var x := Item(r, 0, 0);
    assert (stack + [rules])[|stack|] == rules;
    assert ListOk(g, rules);
    ListIsOk(g, x);
    var more := g.rulesByLhs[Postdot(g, x)];
    var stack' := stack + [more] + [rules];
    var work' := work + [x];
    assert more in stack' by { assert stack'[|stack|] == more; }
    forall y | y in work' ensures ListDone(g, y, work') || HasList(g, y, stack') {
      if y in work {
        assert ListDone(g, y, work) || HasList(g, y, stack + [rules]);
        assert forall l | l in stack + [rules] :: l in stack';
      }
    }
    forall k | 0 <= k < |stack'| ensures ListOk(g, stack'[k]) {
      if k < |stack| {
        assert (stack + [rules])[k] == stack[k];
      }
    }
  }

  lemma StartReady(g: Grammar, work: seq<Item>, seen: set<nat>)
    requires GrammarOk(g) && Starting(g, work, seen, [])
    ensures Ready(g, {}, map[], 0, work) && AllInRange(g, work)
  {
    forall x | x in work ensures InRange(g, x) && !IsComplete(g, x) {
      ListIsOk(g, x);
    }
    forall y, r: nat | y in work && IsRule(g, r) && PostdotIs(g, y, g.irls[r].lhs) ensures Item(r, 0, 0) in work {
      assert ListDone(g, y, work);
    }
    ClosedIsComplete(g, {}, map[], 0, work);
    SoundInRange(g, {}, 0, work);
  }

  lemma StartDistinct(g: Grammar, work: seq<Item>, seen: set<nat>)
    requires Starting(g, work, seen, [])
    ensures Distinct(work)
  {
  }

  lemma FirstRest(g: Grammar, work: seq<Item>, postdot: Postdots)
    requires Ready(g, {}, map[], 0, work) && IndexOk(g, work, postdot)
    requires LimsOk(g, {}, View(map[], 0, work, postdot), 0)
    ensures Resting(g, {}, View(map[], 0, work, postdot), [], 0, 0, 0)
  {
    hide Ready, IndexOk, LimsOk, SetOk, NoItems;
    FinishedSetOk(g, {}, map[], 0, work, postdot);
  }

  // ---------------------------------------------------------------- reading a token

  /** The guards on a token that do not look at the parse, in the order they are made. With every symbol
      valued, an unvalued token is refused one way or the other. */
  function TokenCode(phase: Phase, lex: Lexicon, xsy: int, value: int, length: int): Code {
    if phase != DuringInput then RecceNotAcceptingInput
    else if xsy < 0 then InvalidSymbolId
    else if xsy >= lex.xsyCount then NoSuchSymbolId
    else if length <= 0 then TokenLengthLeZero
    else if length >= JEARLEME_THRESHOLD then TokenTooLong
    else if xsy !in lex.terminals then TokenIsNotTerminal
    else if value == 0 then SymbolValuedConflict
    else if xsy !in lex.nsyOf then InaccessibleToken
    else NoError
  }

  /** The guards that depend on the parse: a token is accepted exactly when an item waits for it,
      it ends in range, and it has not been read before. */
  ghost function ParseCode(sets: Sets, ts: set<Token>, current: nat, a: nat, length: nat): Code {
    if current !in sets then NoTokenExpectedHere
    else if a !in sets[current].postdot then UnexpectedTokenId
    else if current + length >= JEARLEME_THRESHOLD then ParseTooLong
    else if Token(a, current, current + length) in ts then DuplicateToken
    else NoError
  }

  /** The whole verdict on a token. */
  ghost function AlternativeCode(phase: Phase, lex: Lexicon, sets: Sets, ts: set<Token>, current: nat, xsy: int,
      value: int, length: int): Code {
    var code := TokenCode(phase, lex, xsy, value, length);
    if code != NoError then code else ParseCode(sets, ts, current, lex.nsyOf[xsy], length)
  }

  /** What the recognizer looks up in its sets, said by derivations. */
  lemma LookedUp(g: Grammar, ts: set<Token>, sets: Sets, current: nat, latest: nat, a: nat)
    requires RulesOk(g) && SetsOk(g, ts, sets, current + 1) && SetKeysOk(ts, sets, current, latest)
    ensures current in sets <==> current == 0 || exists t :: t in ts && t.end == current
    ensures current in sets && a in sets[current].postdot <==> Waited(g, ts, current, a)
  {
    hide RulesOk;
    assert EndsAt(ts, current) <==> exists t :: t in ts && t.end == current;
    if current in sets {
      WaitersExact(g, ts, sets, current + 1, current, a);
    }
    if x :| Valid(g, ts, x, current) && PostdotIs(g, x, a) {
      EarlierItem(g, ts, sets, current + 1, x, current);
    }
  }

  lemma DuplicateKey(ts: set<Token>, sets: Sets, alts: seq<Alternative>, current: nat, furthest: nat, t: Token)
    requires TokensOk(ts, sets, alts, current, furthest) && t.end > current
    ensures HasKey(alts, t) <==> t in ts
  {
    if HasKey(alts, t) {
      var k :| 0 <= k < |alts| && Key(alts[k]) == t;
      assert alts[k] in alts;
    }
  }

  lemma TokensAdd(ts: set<Token>, sets: Sets, alts: seq<Alternative>, alts': seq<Alternative>, current: nat,
      furthest: nat, furthest': nat, a: Alternative)
    requires TokensOk(ts, sets, alts, current, furthest) && furthest <= furthest'
    requires a.start in sets && a.start <= current < a.end <= furthest' && a.symbol in sets[a.start].postdot
    requires Sorted(alts') && forall b :: b in alts' <==> b == a || b in alts
    ensures TokensOk(ts + {Key(a)}, sets, alts', current, furthest')
  {
    forall t | t in ts + {Key(a)} && t.end > current ensures HasKey(alts', t) {
      if t == Key(a) {
        KeyOf(alts', a);
      } else {
        var q :| 0 <= q < |alts| && Key(alts[q]) == t;
        assert alts[q] in alts;
        KeyOf(alts', alts[q]);
      }
    }
  }

  lemma KeyOf(alts: seq<Alternative>, a: Alternative)
    requires a in alts
    ensures HasKey(alts, Key(a))
  {
    var k :| 0 <= k < |alts| && alts[k] == a;
  }

  lemma LatestIsHere(ts: set<Token>, sets: Sets, current: nat, latest: nat)
    requires SetKeysOk(ts, sets, current, latest)
    ensures latest in sets && (latest == current <==> current in sets)
  {
  }

  lemma PimsPresent(g: Grammar, ts: set<Token>, sets: Sets, n: nat, i: nat, a: nat)
    requires SetsOk(g, ts, sets, n) && i in sets
    ensures FirstPim(sets, i, a) == [] <==> a !in sets[i].postdot
  {
    assert SetOk(g, ts, sets, i);
    if a in sets[i].postdot {
      assert PimsOk(g, sets[i].items, a, sets[i].postdot[a]);
    }
  }

  lemma RestingTokens(g: Grammar, ts: set<Token>, sets: Sets, alts: seq<Alternative>, current: nat, latest: nat,
      furthest: nat, t: Token)
    requires Resting(g, ts, sets, alts, current, latest, furthest) && t.end > current
    ensures Sorted(alts)
    ensures HasKey(alts, t) <==> t in ts
    ensures t in ts ==> t.end <= furthest
  {
    DuplicateKey(ts, sets, alts, current, furthest, t);
  }

  lemma RestAdd(g: Grammar, ts: set<Token>, sets: Sets, alts: seq<Alternative>, alts': seq<Alternative>,
                current: nat, latest: nat, furthest: nat, furthest': nat, a: Alternative)
    requires RulesOk(g) && Resting(g, ts, sets, alts, current, latest, furthest) && furthest <= furthest'
    requires a.start in sets && a.start <= current < a.end <= furthest' && a.symbol in sets[a.start].postdot
    requires Sorted(alts') && forall b :: b in alts' <==> b == a || b in alts
    ensures Resting(g, ts + {Key(a)}, sets, alts', current, latest, furthest')
  {
    hide SetsOk, TokensOk, Sorted, RulesOk;
    SetsKeepTokens(g, ts, ts + {Key(a)}, sets, current + 1);
    TokensAdd(ts, sets, alts, alts', current, furthest, furthest', a);
    forall i: nat | i <= current ensures EndsAt(ts + {Key(a)}, i) <==> EndsAt(ts, i) {}
  }

  class Recognizer {
    const g: Grammar
    const lex: Lexicon
    var phase: Phase
    var useLeo: bool
    var isUsingLeo: bool
    var current: nat
    var furthest: nat
    var latest: nat
    var sets: Sets
    var alternatives: seq<Alternative>
    var expected: set<nat>
    var work: seq<Item>
    var completionStack: seq<Item>
    /** The source links of the items in `work`, and those of the finished sets. */
    var sources: SourceMap
    var links: map<nat, SourceMap>
    var psls: seq<Psl>
    var firstFree: nat
    var dotPsl: map<nat, nat>
    /** Every token accepted so far. */
    ghost var tokens: set<Token>

    ghost predicate Valid()
      reads this
    {
      && GrammarOk(g) && LexiconOk(g, lex)
      && work == [] && sources == map[] && TerminalsOnly(lex, tokens)
      && PsarOk(psls, firstFree, dotPsl, if phase.BeforeInput? then 0 else current + 1)
      && (phase.BeforeInput? ==>
            sets == map[] && tokens == {} && alternatives == [] && current == furthest == 0 && !isUsingLeo)
      && (!phase.BeforeInput? ==>
            Resting(g, tokens, sets, alternatives, current, latest, furthest) && isUsingLeo == useLeo
            && LinksOk(g, tokens, sets, links))
      && MemoExact(g, sets, useLeo) && AllDistinct(sets)
    }

    constructor (g: Grammar, lex: Lexicon)
      requires GrammarOk(g) && LexiconOk(g, lex)
      ensures Valid() && this.g == g && this.lex == lex && phase == BeforeInput && useLeo
    {
      this.g, this.lex := g, lex;
      phase, useLeo, isUsingLeo := BeforeInput, true, false;
      current, furthest, latest := 0, 0, 0;
      sets, alternatives, expected, tokens := map[], [], {}, {};
      work, completionStack, sources, links := [], [], map[], map[];
      psls, firstFree, dotPsl := [Psl(None, map[])], 0, map[];
    }

    /** Leo items can be switched off before input starts. */
    method SetUseLeo(value: bool) returns (code: Code)
      requires Valid()
      modifies `useLeo
      ensures Valid()
      ensures code == if phase.BeforeInput? then NoError else RecceStarted
      ensures useLeo == if phase.BeforeInput? then value else old(useLeo)
    {
      if phase != BeforeInput {
        return RecceStarted;
      }
      useLeo := value;
      return NoError;
    }

    /** Give every list back; their contents are left as they are. */
    method PsarDealloc(ghost n: nat)
      requires PsarOk(psls, firstFree, dotPsl, n)
      modifies `psls, `firstFree, `dotPsl
      ensures PsarOk(psls, firstFree, dotPsl, n) && dotPsl == map[]
    {
      var ix := 0;
      ghost var before := psls;
      while ix < |psls| && psls[ix].owner.Some?
        invariant firstFree == old(firstFree) && dotPsl == old(dotPsl)
        invariant 0 <= ix <= firstFree && |psls| == |before|
        invariant forall k | 0 <= k < ix :: psls[k].owner.None?
        invariant forall k | ix <= k < |psls| :: psls[k] == before[k]
        invariant forall k | 0 <= k < |psls| :: psls[k].data == before[k].data
      {
        assert ix < firstFree ==> Owned(before, dotPsl, ix);
        psls := psls[ix := psls[ix].(owner := None)];
        ix := ix + 1;
      }
      assert ix == firstFree by {
        assert ix < firstFree ==> Owned(before, dotPsl, ix);
      }
      firstFree, dotPsl := 0, map[];
    }

    /** Find or create an item of the set under construction. */
    method EarleyItemAssign(j: nat, x: Item) returns (created: bool)
      requires PslInv(psls, firstFree, dotPsl, j, work)
      modifies `psls, `firstFree, `dotPsl, `work
      ensures PslInv(psls, firstFree, dotPsl, j, work)
      ensures created == (x !in old(work))
      ensures work == if created then old(work) + [x] else old(work)
    {
      hide OwnersOk, Current, Stored, Distinct;
      if x.origin !in dotPsl {
        ClaimNew(psls, firstFree, dotPsl, j, work, x.origin);
        ClaimRoom(psls, firstFree, dotPsl);
        if firstFree + 1 >= |psls| {
          psls := psls + [Psl(None, map[])];
        }
        psls := psls[firstFree := psls[firstFree].(owner := Some(x.origin))];
        dotPsl := dotPsl[x.origin := firstFree];
        firstFree := firstFree + 1;
      }
      LookupIsExact(psls, firstFree, dotPsl, j, work, x);
      var ix := dotPsl[x.origin];
      var k := (x.irl, x.dot);
      if k in psls[ix].data && psls[ix].data[k].earleme == j && psls[ix].data[k].item.origin == x.origin {
        return false;
      }
      StoreNew(psls, firstFree, dotPsl, j, work, x);
      work := work + [x];
      psls := psls[ix := psls[ix].(data := psls[ix].data[k := YimRef(x, j)])];
      return true;
    }

    /** Advance every item that expected this token. */
    method ScanAlternative(a: Alternative, j: nat, ghost seen: set<Via>)
      requires PslInv(psls, firstFree, dotPsl, j, work)
      requires a.start in sets && IndexOk(g, sets[a.start].items, sets[a.start].postdot)
      requires SoFar(g, sets, sources, work, seen) && OfToken(Key(a)) !in seen
      modifies `psls, `firstFree, `dotPsl, `work, `sources
      ensures PslInv(psls, firstFree, dotPsl, j, work)
      ensures old(work) <= work
      ensures ScanDone(g, sets[a.start].items, a.symbol, work)
      ensures forall x | x in work :: x in old(work) || Advanced(g, sets[a.start].items, a.symbol, x)
      ensures SoFar(g, sets, sources, work, seen + {OfToken(Key(a))})
    {
      hide PslInv, IndexOk, Advanced, SoFar, Partly, Once, Tracks, Recorded, AddsVia, Add, Unseen, DistinctPims;
      var pims := FirstPim(sets, a.start, a.symbol);
      ghost var before, via := sources, OfToken(Key(a));
      SoFarParts(g, sets, sources, work, seen, via);
      PimsDistinct(g, sets[a.start].items, sets[a.start].postdot, a.symbol);
      PartlyNone(before, via, pims);
      for k := 0 to |pims|
        invariant PslInv(psls, firstFree, dotPsl, j, work)
        invariant old(work) <= work
        invariant forall q | 0 <= q < k && pims[q].YimPim? :: Next(pims[q].item) in work
        invariant forall x | x in work :: x in old(work) || Advanced(g, sets[a.start].items, a.symbol, x)
        invariant Partly(before, sources, via, pims, k) && Once(sources) && Tracks(sources, work)
      {
        PartlyMore(before, sources, via, pims, k);
        // A Leo item heads its list with no Earley item of its own; its base follows.
        if pims[k].YimPim? {
          PimIsAdvance(g, sets[a.start].items, sets[a.start].postdot, a.symbol, k);
          var predecessor := pims[k].item;
          var link := Link(Some(predecessor), OfToken(Key(a)));
          AddTracks(sources, work, Next(predecessor), link);
          ghost var earlier := work;
          var _ := EarleyItemAssign(j, Next(predecessor));
          assert earlier <= work;
          sources := Add(sources, Next(predecessor), link);
        }
      }
      PimsCoverItems(g, sets[a.start].items, sets[a.start].postdot, a.symbol, pims, work);
      PartlyAll(g, sets, before, sources, via, a.start, a.symbol, pims);
      SoFarStep(g, sets, before, sources, work, seen, via);
    }

    /** Read every token that ends at `j`. */
    method ScanTokens(j: nat)
      requires RulesOk(g) && SetsOk(g, tokens, sets, j) && j > 0
      requires TokensOk(tokens, sets, alternatives, j - 1, furthest)
      requires PslInv(psls, firstFree, dotPsl, j, work) && work == [] && sources == map[]
      modifies `alternatives, `psls, `firstFree, `dotPsl, `work, `sources
      ensures PslInv(psls, firstFree, dotPsl, j, work)
      ensures TokensOk(tokens, sets, alternatives, j, furthest)
      ensures AllKernel(g, tokens, j, work) && ScanClosed(g, tokens, sets, j, work)
      ensures SoFar(g, sets, sources, work, TokenVias(tokens, j))
    {
      hide PslInv, SetsOk, IndexOk, ScanClosed, ScanDone, Advanced, Kernel, SoFar, ViasFrom, Sorted;
      ghost var alts := alternatives;
      NothingSoFar(g, sets, alts);
      while alternatives != [] && alternatives[|alternatives| - 1].end <= j
        invariant |alternatives| <= |alts| && alternatives == alts[..|alternatives|]
        invariant PslInv(psls, firstFree, dotPsl, j, work) && AllKernel(g, tokens, j, work)
        invariant ScannedFrom(g, sets, alts, |alternatives|, j, work)
        invariant SoFar(g, sets, sources, work, ViasFrom(alts, |alternatives|))
        decreases |alternatives|
      {
        ghost var n := |alternatives| - 1;
        var a := alternatives[|alternatives| - 1];
        assert a == alts[n] && a in alts;
        alternatives := alternatives[..|alternatives| - 1];
        IndexOfSet(g, tokens, sets, j, a.start);
        ghost var before := work;
        NextVia(alts, n);
        ScanAlternative(a, j, ViasFrom(alts, n + 1));
        KernelJoins(g, tokens, sets, j, Key(a), before, work);
        ScannedStep(g, sets, alts, n, j, before, work);
      }
      ViasScanned(g, tokens, sets, alts, |alternatives|, j, furthest, work);
      AllScanned(g, tokens, sets, alts, |alternatives|, j, furthest, work);
    }

    /** Add the effects of one completed item: the top of a Leo chain, or every waiting item advanced. */
    method CompleteCause(cause: Item, j: nat, ghost seen: set<Via>)
      requires RulesOk(g) && SetsOk(g, tokens, sets, j)
      requires InRange(g, cause) && IsComplete(g, cause) && Kernel(g, tokens, j, cause)
      requires PslInv(psls, firstFree, dotPsl, j, work) && AllKernel(g, tokens, j, work)
      requires SoFar(g, sets, sources, work, seen) && OfItem(cause) !in seen
      modifies `psls, `firstFree, `dotPsl, `work, `completionStack, `sources
      ensures PslInv(psls, firstFree, dotPsl, j, work) && AllKernel(g, tokens, j, work)
      ensures Stacked(g, old(work), old(completionStack), work, completionStack)
      ensures CompletionDone(g, sets, work, cause, Lhs(g, cause))
      ensures SoFar(g, sets, sources, work, seen + {OfItem(cause)})
    {
      hide PslInv, SetsOk, IndexOk, Kernel, Stacked, CompletionDone, SoFar, Partly, Once, Tracks, Recorded, AddsVia,
          Add, Unseen, DistinctPims;
      CompletionSound(g, tokens, sets, j, cause, 0);
      var pims := FirstPim(sets, cause.origin, Lhs(g, cause));
      ghost var before, via := sources, OfItem(cause);
      SoFarParts(g, sets, sources, work, seen, via);
      PimsDistinct(g, sets[cause.origin].items, sets[cause.origin].postdot, Lhs(g, cause));
      PartlyNone(before, via, pims);
      assert Stacked(g, work, completionStack, work, completionStack) by { StackedRefl(g, work, completionStack); }
      for k := 0 to |pims|
        invariant PslInv(psls, firstFree, dotPsl, j, work) && AllKernel(g, tokens, j, work)
        invariant Stacked(g, old(work), old(completionStack), work, completionStack)
        invariant k > 0 ==> pims[0].YimPim?
        invariant forall q | 0 <= q < k && pims[q].YimPim? :: Next(pims[q].item) in work
        invariant Partly(before, sources, via, pims, k) && Once(sources) && Tracks(sources, work)
        invariant k == 0 ==> sources == before
      {
        CompletionSound(g, tokens, sets, j, cause, k);
        PartlyMore(before, sources, via, pims, k);
        var effect := match pims[k] case LimPim(lim) => Item(lim.topIrl, |g.irls[lim.topIrl].rhs|, lim.origin.value)
                                    case YimPim(item) => Next(item);
        var link := Link(if pims[k].LimPim? then None else Some(pims[k].item), OfItem(cause));
        AddTracks(sources, work, effect, link);
        EffectInRange(g, tokens, j, effect);
        ghost var earlier := work;
        if effect !in work {
          StackedPush(g, old(work), old(completionStack), work, completionStack, effect);
        }
        var _ := EarleyItemAssign(j, effect);
        if Get(sources, effect) == NoSource && IsComplete(g, effect) {
          completionStack := completionStack + [effect];
        }
        assert effect in work && earlier <= work;
        if pims[k].LimPim? {
          LeoAll(g, sets, sources, cause);
          sources := Add(sources, effect, link);
          SoFarStep(g, sets, before, sources, work, seen, via);
          EffectsDone(g, sets, work, cause, Lhs(g, cause));
          return;
        }
        sources := Add(sources, effect, link);
      }
      PartlyAll(g, sets, before, sources, via, cause.origin, Lhs(g, cause), pims);
      SoFarStep(g, sets, before, sources, work, seen, via);
      EffectsDone(g, sets, work, cause, Lhs(g, cause));
    }

    /** Run the completion stack down. Each completed item is taken from it once. */
    method CompleteAll(j: nat)
      requires RulesOk(g) && SetsOk(g, tokens, sets, j)
      requires PslInv(psls, firstFree, dotPsl, j, work) && AllKernel(g, tokens, j, work)
      requires SoFar(g, sets, sources, work, TokenVias(tokens, j))
      modifies `psls, `firstFree, `dotPsl, `work, `completionStack, `sources
      ensures PslInv(psls, firstFree, dotPsl, j, work) && AllKernel(g, tokens, j, work)
      ensures old(work) <= work && CompletionsOk(g, sets, work, [])
      ensures SoFar(g, sets, sources, work, AllVias(g, tokens, j, work))
    {
      hide PslInv, SetsOk, Kernel, CompletionsOk, CompletionDone, Universe, Members, SoFar, TokenVias, ItemVias,
          StackExact, Completed, Stacked;
      FillStack(j);
      ghost var done: set<Item> := {};
      ghost var tokenVias := TokenVias(tokens, j);
      assert ItemVias({}) == {} by { NoItemVias(); }
      assert tokenVias + {} == tokenVias;
      while completionStack != []
        invariant PslInv(psls, firstFree, dotPsl, j, work) && AllKernel(g, tokens, j, work)
        invariant old(work) <= work && CompletionsOk(g, sets, work, completionStack)
        invariant StackExact(g, work, completionStack, done)
        invariant SoFar(g, sets, sources, work, tokenVias + ItemVias(done))
        decreases Universe(g, j) - Members(work), |completionStack|
      {
        var cause := completionStack[|completionStack| - 1];
        ghost var work0, stack0 := work, completionStack[..|completionStack| - 1];
        assert completionStack == stack0 + [cause];
        StackTop(g, sets, work, stack0, cause);
        NotDone(g, work, stack0, cause, tokens, j, done);
        completionStack := completionStack[..|completionStack| - 1];
        CompleteCause(cause, j, tokenVias + ItemVias(done));
        PoppedOk(g, sets, work0, stack0, cause, work, completionStack);
        ExactPopped(g, work0, stack0, cause, done, work, completionStack);
        assert tokenVias + ItemVias(done) + {OfItem(cause)} == tokenVias + ItemVias(done + {cause});
        done := done + {cause};
        KernelInRange(g, tokens, j, work);
        DistinctWork(psls, firstFree, dotPsl, j, work);
        StackedSame(g, work0, stack0, work, completionStack);
        if work != work0 {
          MembersGrow(g, j, work0, work);
        }
      }
      NothingStacked(g, work, done);
    }

    /** Put the completed items among those scanned on the stack. */
    method FillStack(j: nat)
      requires RulesOk(g) && PslInv(psls, firstFree, dotPsl, j, work) && AllKernel(g, tokens, j, work)
      modifies `completionStack
      ensures CompletionsOk(g, sets, work, completionStack) && StackExact(g, work, completionStack, {})
    {
      hide PslInv, Kernel, CompletionsOk;
      KernelInRange(g, tokens, j, work);
      DistinctWork(psls, firstFree, dotPsl, j, work);
      completionStack := [];
      for ix := 0 to |work|
        invariant forall x | x in completionStack :: x in work[..ix] && InRange(g, x) && IsComplete(g, x)
        invariant forall q | 0 <= q < ix && IsComplete(g, work[q]) :: work[q] in completionStack
        invariant forall p, q | 0 <= p < q < |completionStack| :: completionStack[p] != completionStack[q]
      {
        assert work[..ix + 1] == work[..ix] + [work[ix]];
        if IsComplete(g, work[ix]) {
          assert work[ix] !in work[..ix];
          completionStack := completionStack + [work[ix]];
        }
      }
      assert work[..|work|] == work;
      StackFilled(g, sets, work, completionStack);
    }

    /** One pass over the items present before prediction adds every predicted rule. */
    method PredictAll(j: nat)
      requires GrammarOk(g) && AllInRange(g, work) && PslInv(psls, firstFree, dotPsl, j, work)
      modifies `psls, `firstFree, `dotPsl, `work
      ensures PslInv(psls, firstFree, dotPsl, j, work)
      ensures Expanding(g, old(work), |old(work)|, j, work)
    {
      hide PslInv, GrammarOk, Expanding, PredictedFrom;
      ghost var work0 := work;
      var count := |work|;
      assert Expanding(g, work0, 0, j, work) by { ExpandNone(g, work0, j); }
      for ix := 0 to count
        invariant count == |work0| && work0 <= work
        invariant PslInv(psls, firstFree, dotPsl, j, work) && Expanding(g, work0, ix, j, work)
      {
        var y := work[ix];
        assert y == work0[ix] && y in work0;
        if !IsComplete(g, y) {
          PredictionList(g, y);
          var rules := g.predictions[Postdot(g, y)];
          for k := 0 to |rules|
            invariant work0 <= work
            invariant PslInv(psls, firstFree, dotPsl, j, work) && Expanding(g, work0, ix, j, work)
            invariant forall q | 0 <= q < k :: Item(rules[q], 0, j) in work
          {
            var x := Item(rules[k], 0, j);
            FromList(g, work0, y, j, x);
            ExpandOne(g, work0, ix, j, work, x);
            ghost var before := work;
            var _ := EarleyItemAssign(j, x);
            assert before <= work;
          }
        }
        ExpandNext(g, work0, ix, j, work);
      }
    }

    /** Build the Earley set at the current earleme. */
    method MakeEarleySet()
      requires GrammarOk(g) && current > 0 && work == [] && sources == map[] && LinksOk(g, tokens, sets, links)
      requires Resting(g, tokens, sets, alternatives, current - 1, latest, furthest)
      requires EndsAt(tokens, current) && PsarOk(psls, firstFree, dotPsl, current)
      requires MemoExact(g, sets, isUsingLeo) && AllDistinct(sets)
      modifies `latest, `alternatives, `sets, `expected, `work, `completionStack, `psls, `firstFree, `dotPsl, `sources,
          `links
      ensures Resting(g, tokens, sets, alternatives, current, latest, furthest)
      ensures PsarOk(psls, firstFree, dotPsl, current + 1) && work == [] && sources == map[]
          && LinksOk(g, tokens, sets, links)
      ensures MemoExact(g, sets, isUsingLeo) && AllDistinct(sets)
      ensures latest == current && current in sets && expected == sets[current].postdot.Keys * TerminalNsys(lex)
      ensures forall i | i in old(sets) :: i in sets && sets[i] == old(sets)[i]
    {
      hide PsarOk, Resting, GrammarOk, PslInv, AllKernel, ScanClosed, CompletionsOk, Expanding, Ready, IndexOk, LimsOk;
      hide SetsOk, TokensOk, SetKeysOk, SoFar, LinksOk, LinksExact, AllVias, TokenVias, MemoExact, EndsAt, RulesOk,
          AllDistinct;
      ghost var alts0, latest0 := alternatives, latest;
      RestingParts(g, tokens, sets, alternatives, current - 1, latest, furthest);
      StaleIsCurrent(psls, firstFree, dotPsl, current);
      latest := current;
      ScanTokens(current);
      ghost var scanned := work;
      CompleteAll(current);
      ScanClosedGrows(g, tokens, sets, current, scanned, work);
      ghost var kernel := work;
      KernelAllInRange(g, tokens, current, work);
      PredictAll(current);
      FinishSet(kernel, alts0, latest0);
    }

    /** Index the items of the new set and put it away. */
    method FinishSet(ghost kernel: seq<Item>, ghost alts0: seq<Alternative>, ghost latest0: nat)
      requires GrammarOk(g) && current > 0 && LinksOk(g, tokens, sets, links)
      requires Resting(g, tokens, sets, alts0, current - 1, latest0, furthest)
          && TokensOk(tokens, sets, alternatives, current, furthest)
      requires EndsAt(tokens, current) && PslInv(psls, firstFree, dotPsl, current, work)
      requires MemoExact(g, sets, isUsingLeo) && AllDistinct(sets)
      requires AllKernel(g, tokens, current, kernel) && Expanding(g, kernel, |kernel|, current, work)
      requires ScanClosed(g, tokens, sets, current, kernel) && CompletionsOk(g, sets, kernel, [])
      requires SoFar(g, sets, sources, kernel, AllVias(g, tokens, current, kernel))
      modifies `sets, `expected, `work, `psls, `firstFree, `dotPsl, `sources, `links
      ensures Resting(g, tokens, sets, alternatives, current, current, furthest)
      ensures PsarOk(psls, firstFree, dotPsl, current + 1) && work == [] && sources == map[]
          && LinksOk(g, tokens, sets, links)
      ensures MemoExact(g, sets, isUsingLeo) && AllDistinct(sets)
      ensures current in sets && expected == sets[current].postdot.Keys * TerminalNsys(lex)
      ensures forall i | i in old(sets) :: i in sets && sets[i] == old(sets)[i]
    {
      hide PsarOk, Resting, GrammarOk, PslInv, AllKernel, ScanClosed, CompletionsOk, Expanding, Ready, IndexOk, LimsOk;
      hide SetsOk, TokensOk, SetKeysOk, SoFar, LinksOk, LinksExact, AllVias, TokenVias, EndsAt, RulesOk, AllDistinct;
      RestingParts(g, tokens, sets, alts0, current - 1, latest0, furthest);
      WorkIsReady(g, tokens, sets, current, kernel, work);
      DistinctWork(psls, firstFree, dotPsl, current, work);
      var postdot := PostdotItemsCreate(g, tokens, sets, current, work, isUsingLeo);
      RestWithSet(g, tokens, sets, alts0, alternatives, current - 1, latest0, furthest, work, postdot);
      TokensForward(tokens, sets, alts0, current - 1, furthest);
      FinishedLinks(g, tokens, sets, current, kernel, work, EarleySet(work, postdot), sources);
      LinksMove(g, tokens, sets, links, current, EarleySet(work, postdot), sources);
      MemoMore(g, sets, isUsingLeo, current, work, postdot);
      DistinctMore(sets, current, work, postdot);
      sets := sets[current := EarleySet(work, postdot)];
      links, sources := links[current := sources], map[];
      expected := postdot.Keys * TerminalNsys(lex);
      CurrentIsStale(psls, firstFree, dotPsl, current, work);
      work := [];
    }

    /** Move to the next earleme; build its Earley set if any token ends there. */
    method AdvanceEarleme() returns (outcome: Outcome)
      requires GrammarOk(g) && work == [] && sources == map[] && LinksOk(g, tokens, sets, links)
      requires Resting(g, tokens, sets, alternatives, current, latest, furthest)
      requires PsarOk(psls, firstFree, dotPsl, current + 1)
      requires MemoExact(g, sets, isUsingLeo) && AllDistinct(sets)
      modifies `current, `latest, `alternatives, `sets, `expected, `work, `completionStack, `psls, `firstFree, `dotPsl,
          `sources, `links
      ensures current == old(current) + 1 && work == [] && sources == map[] && LinksOk(g, tokens, sets, links)
      ensures Resting(g, tokens, sets, alternatives, current, latest, furthest)
      ensures PsarOk(psls, firstFree, dotPsl, current + 1)
      ensures MemoExact(g, sets, isUsingLeo) && AllDistinct(sets)
      ensures KeepsSets(old(sets), sets)
      ensures outcome == if current > furthest then Failed(ParseExhausted)
                         else if EndsAt(tokens, current) then SetMade else NoSet
      ensures outcome == SetMade ==> current in sets && expected == sets[current].postdot.Keys * TerminalNsys(lex)
    {
      hide PsarOk, Resting, GrammarOk, TokensOk, SetKeysOk, SetsOk, EndsAt, MemoExact, TerminalNsys, RulesOk, LinksOk,
          AllDistinct;
      RestingParts(g, tokens, sets, alternatives, current, latest, furthest);
      PsarDealloc(current + 1);
      expected := {};
      current := current + 1;
      if current > furthest || alternatives == [] || alternatives[|alternatives| - 1].end != current {
        RestWithoutSet(g, tokens, sets, alternatives, current - 1, latest, furthest);
        PsarGrows(psls, firstFree, dotPsl, current);
        return if current > furthest then Failed(ParseExhausted) else NoSet;
      }
      TopToken(tokens, sets, alternatives, current - 1, furthest);
      MakeEarleySet();
      return SetMade;
    }

    /** Close the current earleme. */
    method EarlemeComplete() returns (outcome: Outcome)
      requires Valid()
      modifies this
      ensures Valid() && tokens == old(tokens) && useLeo == old(useLeo)
      ensures old(phase) != DuringInput ==>
                && outcome == Failed(RecceNotAcceptingInput) && phase == old(phase)
                && current == old(current) && furthest == old(furthest) && sets == old(sets)
      ensures old(phase) == DuringInput ==>
                && current == old(current) + 1 && furthest == old(furthest)
                && outcome == (if current > furthest then Failed(ParseExhausted)
                               else if EndsAt(tokens, current) then SetMade else NoSet)
                && KeepsSets(old(sets), sets)
                && phase == if NowExhausted(outcome) then AfterInput else DuringInput
      ensures old(phase) == DuringInput ==>
                (phase == AfterInput <==>
                  && (forall t | t in tokens :: t.end <= current)
                  && (current > furthest
                      || ((exists t :: t in tokens && t.end == current)
                          && !(exists x :: x in lex.terminals && x in lex.nsyOf
                                           && Waited(g, tokens, current, lex.nsyOf[x])))))
      ensures old(phase) == DuringInput && (exists t :: t in tokens && t.end > current) ==> phase == DuringInput
    {
      hide PsarOk, Resting, GrammarOk, TokensOk, SetKeysOk, SetsOk, EndsAt, MemoExact, LexiconOk, TerminalNsys,
          KeepsSets, LinksOk, AllDistinct, Waited;
      if phase != DuringInput {
        return Failed(RecceNotAcceptingInput);
      }
      outcome := AdvanceEarleme();
      if outcome.Failed? || (outcome == SetMade && expected == {} && alternatives == []) {
        phase := AfterInput;
      }
      RestingParts(g, tokens, sets, alternatives, current, latest, furthest);
      NothingPending(tokens, sets, alternatives, current, furthest);
      ExhaustionByDerivations(outcome);
    }

    /** The same without the sets: tokens and derivations decide. */
    lemma ExhaustionByDerivations(outcome: Outcome)
      requires RulesOk(g) && SetsOk(g, tokens, sets, current + 1) && SetKeysOk(tokens, sets, current, latest)
      requires TokensOk(tokens, sets, alternatives, current, furthest) && current > 0
      requires outcome == if current > furthest then Failed(ParseExhausted)
                          else if EndsAt(tokens, current) then SetMade else NoSet
      ensures NowExhausted(outcome) <==>
                && (forall t | t in tokens :: t.end <= current)
                && (current > furthest
                    || ((exists t :: t in tokens && t.end == current)
                        && !(exists x :: x in lex.terminals && x in lex.nsyOf
                                         && Waited(g, tokens, current, lex.nsyOf[x]))))
    {
      hide SetsOk, Waited, RulesOk;
      forall a: nat ensures current in sets && a in sets[current].postdot <==> Waited(g, tokens, current, a) {
        LookedUp(g, tokens, sets, current, latest, a);
      }
      if outcome == SetMade {
        assert current in sets;
        var some := sets[current].postdot.Keys * TerminalNsys(lex);
        if x :| x in lex.terminals && x in lex.nsyOf && Waited(g, tokens, current, lex.nsyOf[x]) {
          assert lex.nsyOf[x] in some;
        }
        if a :| a in some {
          var x :| x in lex.nsyOf && x in lex.terminals && lex.nsyOf[x] == a;
          assert Waited(g, tokens, current, lex.nsyOf[x]);
        }
      }
    }

    /** Nothing more can be read: the furthest token has been passed, or no terminal is expected and none is pending. */
    ghost predicate NowExhausted(outcome: Outcome)
      reads this
    {
      || outcome == Failed(ParseExhausted)
      || (outcome == SetMade && current in sets && sets[current].postdot.Keys * TerminalNsys(lex) == {}
          && !(exists t :: t in tokens && t.end > current))
    }

    /** The items of the first set, by a worklist of rule lists. */
    method PredictFirst() returns (items: seq<Item>)
      requires GrammarOk(g)
      ensures Ready(g, {}, map[], 0, items) && AllInRange(g, items) && Distinct(items)
    {
      hide GrammarOk, Starting, Ready, ListOk, HasList;
      StartOk(g);
      items := [Item(g.start, 0, 0)];
      var seen: set<nat> := {g.start};
      var stack := [g.rulesByLhs[Postdot(g, Item(g.start, 0, 0))]];
      while stack != []
        invariant Starting(g, items, seen, stack)
        decreases AllRules(g) - seen, |stack|
      {
        var rules := stack[|stack| - 1];
        var rest := stack[..|stack| - 1];
        assert stack == rest + [rules];
        ghost var seen0 := seen;
        for k := 0 to |rules|
          invariant Starting(g, items, seen, rest + [rules]) && seen0 <= seen
          invariant forall q | 0 <= q < k :: rules[q] in seen
          invariant seen == seen0 ==> rest == stack[..|stack| - 1]
          invariant seen != seen0 ==> AllRules(g) - seen < AllRules(g) - seen0
        {
          var r := rules[k];
          if r !in seen {
            StartPush(g, items, seen, rest, rules, r);
            items := items + [Item(r, 0, 0)];
            seen := seen + {r};
            rest := rest + [g.rulesByLhs[Postdot(g, Item(r, 0, 0))]];
            assert r in AllRules(g) && r !in seen0;
          }
        }
        StartPop(g, items, seen, rest, rules);
        stack := rest;
      }
      StartReady(g, items, seen);
      StartDistinct(g, items, seen);
    }

    /** Clear the lists in use, then give them back. */
    method PsarReset(ghost n: nat)
      requires PsarOk(psls, firstFree, dotPsl, n)
      modifies `psls, `firstFree, `dotPsl
      ensures PsarOk(psls, firstFree, dotPsl, n) && dotPsl == map[]
    {
      var ix := 0;
      while ix < |psls| && psls[ix].owner.Some?
        invariant firstFree == old(firstFree) && dotPsl == old(dotPsl)
        invariant PsarOk(psls, firstFree, dotPsl, n)
        decreases |psls| - ix
      {
        ghost var before := psls;
        psls := psls[ix := psls[ix].(data := map[])];
        assert forall k | 0 <= k < firstFree :: Owned(before, dotPsl, k) ==> Owned(psls, dotPsl, k);
        ix := ix + 1;
      }
      PsarDealloc(n);
    }

    /** The Earley set at earleme 0, which never has Leo items. */
    method MakeFirstSet()
      requires GrammarOk(g) && work == [] && sets == map[] && tokens == {} && alternatives == []
      requires current == furthest == 0 && !isUsingLeo && PsarOk(psls, firstFree, dotPsl, 0)
      modifies `sets, `expected, `latest, `psls, `firstFree, `dotPsl
      ensures Resting(g, tokens, sets, alternatives, current, latest, furthest)
      ensures PsarOk(psls, firstFree, dotPsl, current + 1)
      ensures sets.Keys == {0} && NoLims(sets[0].postdot) && Distinct(sets[0].items)
    {
      hide Resting, GrammarOk, Ready, IndexOk, LimsOk, PsarOk, NoLims, Distinct, AllInRange;
      latest := 0;
      PsarReset(0);
      var items := PredictFirst();
      var postdot := PostdotItemsCreate(g, {}, map[], 0, items, isUsingLeo);
      NothingMarked(postdot);
      FirstRest(g, items, postdot);
      PsarGrows(psls, firstFree, dotPsl, 0);
      sets := map[0 := EarleySet(items, postdot)];
      assert sets == View(map[], 0, items, postdot);
      expected := postdot.Keys * TerminalNsys(lex);
    }

    /** Begin input. */
    method StartInput() returns (code: Code)
      requires Valid()
      modifies this
      ensures Valid() && useLeo == old(useLeo) && tokens == old(tokens)
      ensures current == old(current) && furthest == old(furthest)
      ensures code == if old(phase) == BeforeInput then NoError else RecceStarted
      ensures old(phase) == BeforeInput ==>
                && phase == DuringInput
                && sets.Keys == {0} && NoLims(sets[0].postdot) && Distinct(sets[0].items)
      ensures old(phase) != BeforeInput ==>
                phase == old(phase) && sets == old(sets)
    {
      hide Resting, GrammarOk, LexiconOk, PsarOk, NoLims, Distinct;
      if phase != BeforeInput {
        return RecceStarted;
      }
      current := 0;
      MakeFirstSet();
      assert LinksOk(g, tokens, sets, links);
      MemoFirst(g, sets, useLeo);
      phase := DuringInput;
      isUsingLeo := useLeo;
      return NoError;
    }

    /** Put an expected token on the pending stack, unless it is there already. */
    method PushAlternative(a: nat, value: int, target: nat) returns (added: bool)
      requires RulesOk(g) && Resting(g, tokens, sets, alternatives, current, latest, furthest)
      requires current in sets && a in sets[current].postdot && current < target && LinksOk(g, tokens, sets, links)
      modifies `furthest, `alternatives, `tokens
      ensures Resting(g, tokens, sets, alternatives, current, latest, furthest)
      ensures LinksOk(g, tokens, sets, links)
      ensures added == (Token(a, current, target) !in old(tokens))
      ensures tokens == old(tokens) + {Token(a, current, target)}
      ensures furthest == if target > old(furthest) then target else old(furthest)
      ensures !added ==> alternatives == old(alternatives) && furthest == old(furthest)
      ensures added ==> forall b ::
                b in alternatives <==> b == Alternative(a, current, target, value) || b in old(alternatives)
    {
      hide Resting, SetsOk, TokensOk, SetKeysOk, Sorted, HasKey, RulesOk, LinksOk;
      var alternative := Alternative(a, current, target, value);
      RestingTokens(g, tokens, sets, alternatives, current, latest, furthest, Key(alternative));
      ghost var furthest0 := furthest;
      if furthest < target {
        furthest := target;
      }
      var alternatives', point := Insert(alternatives, alternative);
      if point < 0 {
        SameTokens(tokens, Key(alternative));
        return false;
      }
      RestAdd(g, tokens, sets, alternatives, alternatives', current, latest, furthest0, furthest, alternative);
      SetsBehind(g, tokens, sets, alternatives, current, latest, furthest0);
      LinksKeep(g, tokens, sets, links, Key(alternative), current);
      alternatives := alternatives';
      tokens := tokens + {Key(alternative)};
      return true;
    }

    /** The guards that depend on the parse, short of the duplicate check. */
    method CheckExpected(a: nat, length: nat) returns (code: Code)
      requires SetsOk(g, tokens, sets, current + 1) && SetKeysOk(tokens, sets, current, latest)
      ensures code == if current !in sets then NoTokenExpectedHere
                      else if a !in sets[current].postdot then UnexpectedTokenId
                      else if current + length >= JEARLEME_THRESHOLD then ParseTooLong
                      else NoError
    {
      hide SetsOk, SetKeysOk;
      LatestIsHere(tokens, sets, current, latest);
      if latest != current {
        return NoTokenExpectedHere;
      }
      PimsPresent(g, tokens, sets, current + 1, current, a);
      if FirstPim(sets, latest, a) == [] {
        return UnexpectedTokenId;
      }
      return if current + length >= JEARLEME_THRESHOLD then ParseTooLong else NoError;
    }

    lemma LookUp(a: nat)
      requires Valid() && phase == DuringInput
      ensures current in sets <==> current == 0 || exists t :: t in tokens && t.end == current
      ensures current in sets && a in sets[current].postdot <==> Waited(g, tokens, current, a)
    {
      hide PsarOk, Resting, GrammarOk, LexiconOk, MemoExact, LinksOk, AllDistinct, Waited;
      RestingParts(g, tokens, sets, alternatives, current, latest, furthest);
      LookedUp(g, tokens, sets, current, latest, a);
    }

    /** Offer a token of internal symbol `a` to the parse. */
    method OfferToken(a: nat, value: int, length: nat) returns (code: Code)
      requires Valid() && phase == DuringInput && length > 0 && a in TerminalNsys(lex)
      modifies `furthest, `alternatives, `tokens
      ensures Valid() && code == ParseCode(sets, old(tokens), current, a, length)
      ensures code == NoError ==>
                && tokens == old(tokens) + {Token(a, current, current + length)}
                && furthest == if current + length > old(furthest) then current + length else old(furthest)
      ensures code == NoError ==> forall b ::
                b in alternatives <==>
                  b == Alternative(a, current, current + length, value) || b in old(alternatives)
      ensures code != NoError ==> tokens == old(tokens) && furthest == old(furthest)
      ensures code != NoError ==> alternatives == old(alternatives)
    {
      hide PsarOk, Resting, GrammarOk, LexiconOk, MemoExact, TokensOk, SetKeysOk, SetsOk, RulesOk, LinksOk, AllDistinct;
      RestingParts(g, tokens, sets, alternatives, current, latest, furthest);
      code := CheckExpected(a, length);
      if code == NoError {
        var added := PushAlternative(a, value, current + length);
        code := if added then NoError else DuplicateToken;
      }
    }

    /** Offer a token of external symbol `xsy`, starting at the current earleme. */
    method ReadAlternative(xsy: int, value: int, length: int) returns (code: Code)
      requires Valid()
      modifies `furthest, `alternatives, `tokens
      ensures Valid()
      ensures code == AlternativeCode(phase, lex, sets, old(tokens), current, xsy, value, length)
      ensures code == if phase != DuringInput then RecceNotAcceptingInput
                      else if xsy < 0 then InvalidSymbolId
                      else if xsy >= lex.xsyCount then NoSuchSymbolId
                      else if length <= 0 then TokenLengthLeZero
                      else if length >= 536870911 then TokenTooLong
                      else if xsy !in lex.terminals then TokenIsNotTerminal
                      else if value == 0 then SymbolValuedConflict
                      else if xsy !in lex.nsyOf then InaccessibleToken
                      else if current != 0 && !(exists t :: t in old(tokens) && t.end == current) then
                        NoTokenExpectedHere
                      else if !Waited(g, old(tokens), current, lex.nsyOf[xsy]) then UnexpectedTokenId
                      else if current + length >= 536870911 then ParseTooLong
                      else if Token(lex.nsyOf[xsy], current, current + length) in old(tokens) then DuplicateToken
                      else NoError
      ensures code == NoError <==>
                && phase == DuringInput && 0 <= xsy < lex.xsyCount && 0 < length < 536870911
                && xsy in lex.terminals && value != 0 && xsy in lex.nsyOf
                && Waited(g, old(tokens), current, lex.nsyOf[xsy]) && current + length < 536870911
                && Token(lex.nsyOf[xsy], current, current + length) !in old(tokens)
      ensures code == NoError ==>
                && xsy in lex.nsyOf && length > 0
                && tokens == old(tokens) + {Token(lex.nsyOf[xsy], current, current + length)}
                && furthest == if current + length > old(furthest) then current + length else old(furthest)
      ensures code == NoError ==> forall b ::
                b in alternatives <==>
                  b == Alternative(lex.nsyOf[xsy], current, current + length, value) || b in old(alternatives)
      ensures code != NoError ==> tokens == old(tokens) && furthest == old(furthest)
      ensures code != NoError ==> alternatives == old(alternatives)
    {
      hide Recognizer.Valid, Waited;
      if phase == DuringInput {
        LookUp(if xsy in lex.nsyOf then lex.nsyOf[xsy] else 0);
      }
      code := TokenCode(phase, lex, xsy, value, length);
      if code == NoError {
        code := OfferToken(lex.nsyOf[xsy], value, length);
      }
    }
  }
}
