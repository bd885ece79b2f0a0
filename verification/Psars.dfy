/** Per-set lists: the recycled lookup lists that keep Earley items unique.

  A list is claimed by an origin set for the duration of one earleme. Lists are given back without
  being cleared, so a claimed list may still hold items of earlier Earley sets. */
module Psars {
  import opened Derivations
  import opened EarleySets

  /** An item of the Earley set at `earleme`. */
  datatype YimRef = YimRef(item: Item, earleme: nat)

  /** `owner` points back to the origin set that claimed the list; `data` is indexed by AHM. */
  datatype Psl = Psl(owner: Option<nat>, data: map<(nat, nat), YimRef>)

  ghost predicate Owned(psls: seq<Psl>, dotPsl: map<nat, nat>, ix: nat) {
    && ix < |psls|
    && psls[ix].owner.Some?
    && psls[ix].owner.value in dotPsl
    && dotPsl[psls[ix].owner.value] == ix
  }

  /** The owned lists form a prefix, owners and owned lists point at each other. */
  ghost predicate OwnersOk(psls: seq<Psl>, firstFree: nat, dotPsl: map<nat, nat>) {
    && firstFree < |psls|
    && (forall ix | 0 <= ix < firstFree :: Owned(psls, dotPsl, ix))
    && (forall ix | firstFree <= ix < |psls| :: psls[ix].owner.None?)
    && (forall o | o in dotPsl :: dotPsl[o] < firstFree && psls[dotPsl[o]].owner == Some(o))
  }

  /** Nothing stored anywhere belongs to a set at `n` or later. */
  ghost predicate Stale(psls: seq<Psl>, n: nat) {
    forall ix, k | 0 <= ix < |psls| && k in psls[ix].data :: psls[ix].data[k].earleme < n
  }

  /** A stored item of set `j` is a working item, stored at its own AHM in the list of its own origin. */
  ghost predicate Current(psls: seq<Psl>, j: nat, work: seq<Item>) {
    forall ix, k | 0 <= ix < |psls| && k in psls[ix].data ::
      && psls[ix].data[k].earleme <= j
      && (psls[ix].data[k].earleme == j ==>
            && psls[ix].data[k].item in work
            && (psls[ix].data[k].item.irl, psls[ix].data[k].item.dot) == k
            && psls[ix].owner == Some(psls[ix].data[k].item.origin))
  }

  ghost predicate Stored(psls: seq<Psl>, dotPsl: map<nat, nat>, j: nat, x: Item) {
    && x.origin in dotPsl
    && dotPsl[x.origin] < |psls|
    && (x.irl, x.dot) in psls[dotPsl[x.origin]].data
    && psls[dotPsl[x.origin]].data[(x.irl, x.dot)] == YimRef(x, j)
  }

  ghost predicate PslInv(psls: seq<Psl>, firstFree: nat, dotPsl: map<nat, nat>, j: nat, work: seq<Item>) {
    && OwnersOk(psls, firstFree, dotPsl)
    && Current(psls, j, work)
    && (forall x | x in work :: Stored(psls, dotPsl, j, x))
    && Distinct(work)
  }

  /** All that survives between earlemes: an allocator whose contents are out of date. */
  ghost predicate PsarOk(psls: seq<Psl>, firstFree: nat, dotPsl: map<nat, nat>, n: nat) {
    OwnersOk(psls, firstFree, dotPsl) && Stale(psls, n)
  }

  lemma StaleIsCurrent(psls: seq<Psl>, firstFree: nat, dotPsl: map<nat, nat>, j: nat)
    requires PsarOk(psls, firstFree, dotPsl, j)
    ensures PslInv(psls, firstFree, dotPsl, j, [])
  {
  }

  lemma CurrentIsStale(psls: seq<Psl>, firstFree: nat, dotPsl: map<nat, nat>, j: nat, work: seq<Item>)
    requires PslInv(psls, firstFree, dotPsl, j, work)
    ensures PsarOk(psls, firstFree, dotPsl, j + 1)
  {
  }

  /** The lookup answers exactly whether the item is already in the set under construction. */
  lemma LookupIsExact(psls: seq<Psl>, firstFree: nat, dotPsl: map<nat, nat>, j: nat, work: seq<Item>, x: Item)
    requires PslInv(psls, firstFree, dotPsl, j, work) && x.origin in dotPsl
    ensures dotPsl[x.origin] < |psls|
    ensures var data := psls[dotPsl[x.origin]].data;
            var k := (x.irl, x.dot);
            x in work <==> k in data && data[k].earleme == j && data[k].item.origin == x.origin
  {
    assert x in work ==> Stored(psls, dotPsl, j, x);
  }

  lemma ClaimNew(psls: seq<Psl>, firstFree: nat, dotPsl: map<nat, nat>, j: nat, work: seq<Item>, o: nat)
    requires PslInv(psls, firstFree, dotPsl, j, work) && o !in dotPsl
    ensures var extended := if firstFree + 1 < |psls| then psls else psls + [Psl(None, map[])];
            PslInv(extended[firstFree := extended[firstFree].(owner := Some(o))], firstFree + 1,
                dotPsl[o := firstFree], j, work)
  {
    var extended := if firstFree + 1 < |psls| then psls else psls + [Psl(None, map[])];
    var psls' := extended[firstFree := extended[firstFree].(owner := Some(o))];
    var dotPsl' := dotPsl[o := firstFree];
    forall ix | 0 <= ix < firstFree + 1 ensures Owned(psls', dotPsl', ix) {
      assert ix < firstFree ==> Owned(psls, dotPsl, ix);
    }
    forall ix, k | 0 <= ix < |psls'| && k in psls'[ix].data
      ensures psls'[ix].data[k].earleme <= j
      ensures psls'[ix].data[k].earleme == j ==>
                && psls'[ix].data[k].item in work
                && (psls'[ix].data[k].item.irl, psls'[ix].data[k].item.dot) == k
                && psls'[ix].owner == Some(psls'[ix].data[k].item.origin)
    {
      assert ix < |psls| && psls'[ix].data == psls[ix].data;
    }
    forall x | x in work ensures Stored(psls', dotPsl', j, x) {
      assert Stored(psls, dotPsl, j, x);
    }
  }

  lemma StoreNew(psls: seq<Psl>, firstFree: nat, dotPsl: map<nat, nat>, j: nat, work: seq<Item>, x: Item)
    requires PslInv(psls, firstFree, dotPsl, j, work) && x !in work
    requires x.origin in dotPsl && dotPsl[x.origin] < |psls|
    ensures var ix := dotPsl[x.origin];
            PslInv(psls[ix := psls[ix].(data := psls[ix].data[(x.irl, x.dot) := YimRef(x, j)])], firstFree, dotPsl, j,
                work + [x])
  {
    var ix := dotPsl[x.origin];
    var psls' := psls[ix := psls[ix].(data := psls[ix].data[(x.irl, x.dot) := YimRef(x, j)])];
    forall i | 0 <= i < firstFree ensures Owned(psls', dotPsl, i) {
      assert Owned(psls, dotPsl, i);
    }
    forall y | y in work + [x] ensures Stored(psls', dotPsl, j, y) {
      assert y != x ==> Stored(psls, dotPsl, j, y);
    }
  }

  lemma ClaimRoom(psls: seq<Psl>, firstFree: nat, dotPsl: map<nat, nat>)
    requires OwnersOk(psls, firstFree, dotPsl)
    ensures firstFree < |psls|
  {
  }

  lemma PsarGrows(psls: seq<Psl>, firstFree: nat, dotPsl: map<nat, nat>, n: nat)
    requires PsarOk(psls, firstFree, dotPsl, n)
    ensures PsarOk(psls, firstFree, dotPsl, n + 1)
  {
  }
}
