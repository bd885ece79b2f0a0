/** Source links: how each item of an Earley set came about. */
module SourceLinks {
  import opened Grammars
  import opened Derivations
  import opened EarleySets

  /** What moved the dot: a token read, or an item completed. */
  datatype Via = OfToken(token: Token) | OfItem(item: Item)

  /** The item whose dot was moved is the predecessor; a Leo link has a Leo item in its place, the one for the
      left side of the completed item in its origin set. */
  datatype Link = Link(predecessor: Option<Item>, via: Via)

  /** One link is stored in the item itself; more go to three lists by kind. */
  datatype Sources =
    | NoSource
    | Unique(link: Link)
    | Ambiguous(tokens: seq<Link>, completions: seq<Link>, leos: seq<Link>)

  function Pushed(s: Sources, l: Link): Sources
    requires s.Ambiguous?
  {
    if l.via.OfToken? then s.(tokens := [l] + s.tokens)
    else if l.predecessor.Some? then s.(completions := [l] + s.completions)
    else s.(leos := [l] + s.leos)
  }

  /** Make room for more links: the one there is moves to the list of its kind. */
  function Ambiguate(s: Sources): Sources
    requires s.Unique?
  {
    if s.link.via.OfToken? then Ambiguous([s.link], [], [])
    else if s.link.predecessor.Some? then Ambiguous([], [s.link], [])
    else Ambiguous([], [], [s.link])
  }

  function AddLink(s: Sources, l: Link): Sources {
    match s
    case NoSource => Unique(l)
    case Unique(_) => Pushed(Ambiguate(s), l)
    case Ambiguous(_, _, _) => Pushed(s, l)
  }

  ghost function Links(s: Sources): multiset<Link> {
    match s
    case NoSource => multiset{}
    case Unique(l) => multiset{l}
    case Ambiguous(tokens, completions, leos) => multiset(tokens) + multiset(completions) + multiset(leos)
  }

  lemma PushedKeeps(s: Sources, l: Link)
    requires s.Ambiguous?
    ensures Links(Pushed(s, l)) == Links(s) + multiset{l}
  {
    if l.via.OfToken? {
      assert multiset([l] + s.tokens) == multiset{l} + multiset(s.tokens);
    } else if l.predecessor.Some? {
      assert multiset([l] + s.completions) == multiset{l} + multiset(s.completions);
    } else {
      assert multiset([l] + s.leos) == multiset{l} + multiset(s.leos);
    }
  }

  /** Making room loses nothing. */
  lemma AmbiguateKeeps(s: Sources)
    requires s.Unique?
    ensures Links(Ambiguate(s)) == Links(s)
  {
  }

  /** No link is ever lost. */
  lemma AddLinkKeeps(s: Sources, l: Link)
    ensures Links(AddLink(s, l)) == Links(s) + multiset{l} && AddLink(s, l) != NoSource
  {
    if s.Unique? {
      AmbiguateKeeps(s);
      PushedKeeps(Ambiguate(s), l);
    } else if s.Ambiguous? {
      PushedKeeps(s, l);
    }
  }

  // ---------------------------------------------------------------- the links of a whole set

  type SourceMap = map<Item, Sources>

  function Get(srcs: SourceMap, x: Item): Sources {
    if x in srcs then srcs[x] else NoSource
  }

  function Add(srcs: SourceMap, x: Item, l: Link): SourceMap {
    srcs[x := AddLink(Get(srcs, x), l)]
  }

  ghost predicate Has(srcs: SourceMap, x: Item, l: Link) {
    x in srcs && l in Links(srcs[x])
  }

  ghost predicate Once(srcs: SourceMap) {
    forall x, l | x in srcs :: Links(srcs[x])[l] <= 1
  }

  /** Just these items have links, and each has at least one. */
  ghost predicate Tracks(srcs: SourceMap, items: seq<Item>) {
    (forall x :: x in srcs <==> x in items) && forall x | x in srcs :: srcs[x] != NoSource
  }

  lemma AddHas(srcs: SourceMap, x: Item, l: Link)
    requires Once(srcs) && !Has(srcs, x, l)
    ensures Once(Add(srcs, x, l))
    ensures forall y, k :: Has(Add(srcs, x, l), y, k) <==> Has(srcs, y, k) || (y == x && k == l)
  {
    AddLinkKeeps(Get(srcs, x), l);
    hide AddLink, Links;
    LinksNone();
  }

  lemma LinksNone()
    ensures Links(NoSource) == multiset{}
  {
  }

  lemma AddTracks(srcs: SourceMap, items: seq<Item>, x: Item, l: Link)
    requires Tracks(srcs, items)
    ensures Tracks(Add(srcs, x, l), if x in items then items else items + [x])
    ensures Get(srcs, x) == NoSource <==> x !in items
  {
    AddLinkKeeps(Get(srcs, x), l);
  }

  /** The step from predecessor to item really is one: the predecessor waited at the right place for the token
      or completion, or a Leo item there leads to the item. */
  ghost predicate StepTrue(g: Grammar, sets: Sets, via: Via, x: Item, p: Option<Item>) {
    match via
    case OfToken(t) => t.start in sets && Advances(g, sets[t.start].items, t.symbol, x, p)
    case OfItem(c) =>
      && InRange(g, c) && IsComplete(g, c) && c.origin in sets
      && var here := sets[c.origin];
         if HasLim(here.postdot, Lhs(g, c))
         then p == None && Populated(g, LimAt(here.postdot, Lhs(g, c)))
             && x == TopItem(g, LimAt(here.postdot, Lhs(g, c)))
         else Advances(g, here.items, Lhs(g, c), x, p)
  }

  ghost predicate Advances(g: Grammar, items: seq<Item>, a: nat, x: Item, p: Option<Item>) {
    p.Some? && p.value in items && PostdotIs(g, p.value, a) && x == Next(p.value)
  }

  /** Exactly the true steps by these tokens and completions are recorded. */
  ghost predicate Recorded(g: Grammar, sets: Sets, srcs: SourceMap, seen: set<Via>) {
    forall x, l :: Has(srcs, x, l) <==> l.via in seen && StepTrue(g, sets, l.via, x, l.predecessor)
  }

  ghost predicate AddsVia(g: Grammar, sets: Sets, before: SourceMap, after: SourceMap, via: Via) {
    forall x, l :: Has(after, x, l) <==> Has(before, x, l) || (l.via == via && StepTrue(g, sets, via, x, l.predecessor))
  }

  lemma RecordedStep(g: Grammar, sets: Sets, before: SourceMap, after: SourceMap, seen: set<Via>, via: Via)
    requires Recorded(g, sets, before, seen) && AddsVia(g, sets, before, after, via)
    ensures Recorded(g, sets, after, seen + {via})
  {
    hide Has, StepTrue;
  }

  lemma RecordedNothing(g: Grammar, sets: Sets)
    ensures Recorded(g, sets, map[], {}) && Once(map[]) && Tracks(map[], [])
  {
  }

  ghost predicate Unseen(srcs: SourceMap, via: Via) {
    forall x, l | Has(srcs, x, l) :: l.via != via
  }

  lemma NewVia(g: Grammar, sets: Sets, srcs: SourceMap, seen: set<Via>, via: Via)
    requires Recorded(g, sets, srcs, seen) && via !in seen
    ensures Unseen(srcs, via)
  {
    hide Has, StepTrue;
  }

  // ---------------------------------------------------------------- one token or completion, item by item

  /** An advance recorded for one of the first `k` entries of a postdot list. */
  ghost predicate Among(pims: seq<Pim>, k: nat, x: Item, p: Option<Item>) {
    exists q :: 0 <= q < k && q < |pims| && pims[q].YimPim? && p == Some(pims[q].item) && x == Next(pims[q].item)
  }

  ghost predicate Partly(before: SourceMap, srcs: SourceMap, via: Via, pims: seq<Pim>, k: nat) {
    forall x, l :: Has(srcs, x, l) <==> Has(before, x, l) || (l.via == via && Among(pims, k, x, l.predecessor))
  }

  lemma PartlyNone(before: SourceMap, via: Via, pims: seq<Pim>)
    ensures Partly(before, before, via, pims, 0)
  {
  }

  lemma AmongNext(pims: seq<Pim>, k: nat, x: Item, p: Option<Item>)
    requires k < |pims|
    ensures Among(pims, k + 1, x, p) <==>
            Among(pims, k, x, p) || (pims[k].YimPim? && p == Some(pims[k].item) && x == Next(pims[k].item))
  {
    if pims[k].YimPim? && p == Some(pims[k].item) && x == Next(pims[k].item) {
      assert Among(pims, k + 1, x, p);
    }
  }

  /** Recording the next entry. */
  lemma PartlyNext(before: SourceMap, srcs: SourceMap, via: Via, pims: seq<Pim>, k: nat)
    requires Partly(before, srcs, via, pims, k) && Unseen(before, via) && Once(srcs) && k < |pims|
    requires forall m, n | 0 <= m < n < |pims| :: pims[m] != pims[n]
    ensures pims[k].YimPim? ==>
              var y := pims[k].item;
              && Once(Add(srcs, Next(y), Link(Some(y), via)))
              && Partly(before, Add(srcs, Next(y), Link(Some(y), via)), via, pims, k + 1)
    ensures pims[k].LimPim? ==> Partly(before, srcs, via, pims, k + 1)
  {
    forall x, p ensures Among(pims, k + 1, x, p) <==>
                        Among(pims, k, x, p) || (pims[k].YimPim? && p == Some(pims[k].item)
                            && x == Next(pims[k].item)) {
      AmongNext(pims, k, x, p);
    }
    if pims[k].YimPim? {
      var y := pims[k].item;
      var l := Link(Some(y), via);
      assert !Among(pims, k, Next(y), Some(y));
      hide Has, Among, Once;
      assert !Has(srcs, Next(y), l);
      AddHas(srcs, Next(y), l);
    }
  }

  /** A whole postdot list without a Leo item, or a token, which does not look at Leo items. */
  lemma PartlyAll(g: Grammar, sets: Sets, before: SourceMap, srcs: SourceMap, via: Via, i: nat, a: nat, pims: seq<Pim>)
    requires i in sets && IndexOk(g, sets[i].items, sets[i].postdot)
    requires pims == if a in sets[i].postdot then sets[i].postdot[a] else []
    requires match via
             case OfToken(t) => t.start == i && t.symbol == a
             case OfItem(c) =>
                 InRange(g, c) && IsComplete(g, c) && c.origin == i && Lhs(g, c) == a && !HasLim(sets[i].postdot, a)
    requires Partly(before, srcs, via, pims, |pims|)
    ensures AddsVia(g, sets, before, srcs, via)
  {
    forall x, p ensures Among(pims, |pims|, x, p) <==> Advances(g, sets[i].items, a, x, p) {
      if Advances(g, sets[i].items, a, x, p) {
        assert YimPim(p.value) in pims;
      }
      if Among(pims, |pims|, x, p) {
        assert PimsOk(g, sets[i].items, a, pims);
      }
    }
    hide Has, Among, Advances, IndexOk;
  }

  /** A Leo item takes the place of the whole list. */
  lemma LeoAll(g: Grammar, sets: Sets, before: SourceMap, c: Item)
    requires InRange(g, c) && IsComplete(g, c) && c.origin in sets && HasLim(sets[c.origin].postdot, Lhs(g, c))
    requires Populated(g, LimAt(sets[c.origin].postdot, Lhs(g, c)))
    requires Once(before) && Unseen(before, OfItem(c))
    ensures var srcs := Add(before, TopItem(g, LimAt(sets[c.origin].postdot, Lhs(g, c))), Link(None, OfItem(c)));
            Once(srcs) && AddsVia(g, sets, before, srcs, OfItem(c))
  {
    hide Has, Once;
    AddHas(before, TopItem(g, LimAt(sets[c.origin].postdot, Lhs(g, c))), Link(None, OfItem(c)));
  }

  // ---------------------------------------------------------------- finished sets

  /** Everything that can move a dot into the set at `j`. */
  ghost predicate IsVia(g: Grammar, ts: set<Token>, j: nat, items: seq<Item>, via: Via) {
    match via
    case OfToken(t) => t in ts && t.end == j
    case OfItem(c) => c in items && InRange(g, c) && IsComplete(g, c)
  }

  /** The links of the set at `j`: all steps into it and nothing else, each once, and at least one for every item
      that was not predicted. */
  ghost predicate LinksExact(g: Grammar, ts: set<Token>, sets: Sets, j: nat, items: seq<Item>, srcs: SourceMap) {
    && Once(srcs)
    && (forall x :: x in srcs <==> x in items && x.dot > 0)
    && (forall x | x in srcs :: srcs[x] != NoSource)
    && (forall x, l :: Has(srcs, x, l) <==> IsVia(g, ts, j, items, l.via) && StepTrue(g, sets, l.via, x, l.predecessor))
  }

  ghost predicate LinksOk(g: Grammar, ts: set<Token>, sets: Sets, links: map<nat, SourceMap>) {
    forall j | j in sets && j > 0 :: j in links && LinksExact(g, ts, sets, j, sets[j].items, links[j])
  }
}
