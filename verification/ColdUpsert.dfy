/** `upsert` and `remove` of one key as lists of stores, and what they do to the map. */
module ColdUpsert {
  import opened Options
  import opened ColdRegion
  import opened ColdSteps

  /** What one pass over the chain tells the writer to do. */
  datatype Plan =
    | Update(l: Loc)
    | Insert(l: Loc)
    | Extend(n: nat, t: nat)
    | Full

  /** A published match wins; otherwise the first unpublished slot; otherwise a new overflow bucket. */
  ghost function PlanOf(r: Region, h: nat, k: Word): (p: Plan)
    requires Shape(r) && h < r.main
  {
    if Find(r, h, k).Some? then Update(Find(r, h, k).value)
    else if FirstFree(r, h).Some? then Insert(FirstFree(r, h).value)
    else if r.alloc < r.over then Extend(r.alloc + 1, Tail(r, h))
    else Full
  }

  /** The stores that carry out a plan, in program order. */
  function PlanStores(r: Region, p: Plan, k: Word, o: Word): (ss: seq<Store>)
    requires p.Extend? ==> p.t < |r.buckets|
  {
    match p
    case Update(l) => [SetOff(l.b, l.i, o)]
    case Insert(l) => [SetKey(l.b, l.i, k), SetOff(l.b, l.i, o), OrOcc(l.b, {l.i}), AddCount]
    case Extend(n, t) =>
      [SetAlloc(n), SetKey(r.main + n, 0, k), SetOff(r.main + n, 0, o), SetHdr(r.main + n, {0}, 0),
       SetHdr(t, r.buckets[t].occ, n), AddCount]
    case Full => [SetAlloc(r.alloc + 1), SetAlloc(r.alloc)]
  }

  /** False exactly when the key needs a new overflow bucket and the pool is used up. */
  ghost predicate UpsertOk(r: Region, h: nat, k: Word)
    requires Shape(r) && h < r.main
  {
    !PlanOf(r, h, k).Full?
  }

  /** The stores `upsert` issues, in program order. */
  ghost function UpsertStores(r: Region, h: nat, k: Word, o: Word): (ss: seq<Store>)
    requires Shape(r) && h < r.main
  {
    PlanStores(r, PlanOf(r, h, k), k, o)
  }

  ghost function Upsert(r: Region, h: nat, k: Word, o: Word): (r': Region)
    requires Shape(r) && h < r.main
  {
    Run(r, UpsertStores(r, h, k, o))
  }

  /** The stores `remove` issues: a tombstone over the offset of the published slot, if there is one. */
  ghost function RemoveStores(r: Region, h: nat, k: Word): (ss: seq<Store>)
    requires Shape(r) && h < r.main
  {
    match Find(r, h, k)
    case Some(l) => [SetOff(l.b, l.i, TOMBSTONE)]
    case None => []
  }

  /** Key `k` is stored on chain `h` with offset `o`. */
  ghost predicate Maps(r: Region, h: nat, k: Word, o: Word) {
    Shape(r) && h < r.main && Ent(r, h, k) == Some(o)
  }

  // ---------------------------------------------------------------- composing store lists

  lemma AlongOne(r: Region, s: Store, h: nat, w: set<(Word, Word)>)
    requires Inv(r) && Evolves(r, Apply(r, s), h, w)
    ensures Along(r, [s], h, w) && Run(r, [s]) == Apply(r, s)
  {
    assert [s][1..] == [];
  }

  lemma AlongThen(r: Region, s1: seq<Store>, s2: seq<Store>, h: nat, w: set<(Word, Word)>)
    requires Inv(r) && Along(r, s1, h, w)
    requires Inv(Run(r, s1)) ==> Along(Run(r, s1), s2, h, w)
    ensures Inv(Run(r, s1)) && Along(r, s1 + s2, h, w) && Run(r, s1 + s2) == Run(Run(r, s1), s2)
  {
    AlongWhole(r, s1, h, w);
    AlongAppend(r, s1, s2, h, w);
    RunAppend(r, s1, s2);
  }

  /** Stores that change no entry for an empty write set change none for any. */
  lemma AlongHidden(r: Region, ss: seq<Store>, h: nat, k: Word, w: set<(Word, Word)>)
    requires Inv(r) && Along(r, ss, h, {}) && h < r.main
    ensures Along(r, ss, h, w)
    ensures Inv(Run(r, ss)) && Run(r, ss).main == r.main && Ent(Run(r, ss), h, k) == Ent(r, h, k)
  {
    AlongWhole(r, ss, h, {});
    AlongWeaken(r, ss, h, {}, w);
    assert EntKept(r, Run(r, ss), h, k, h, {});
  }

  // ---------------------------------------------------------------- the pieces of upsert

  lemma UpdateList(r: Region, h: nat, l: Loc, k: Word, o: Word)
    requires Inv(r) && h < r.main && Pub(r, h, l.b, l.i, k)
    ensures Along(r, PlanStores(r, Update(l), k, o), h, {(k, o)})
    ensures Maps(Run(r, PlanStores(r, Update(l), k, o)), h, k, o)
  {
    StoreOffset(r, l.b, l.i, k, o, h, {(k, o)});
    AlongOne(r, SetOff(l.b, l.i, o), h, {(k, o)});
    assert PlanStores(r, Update(l), k, o) == [SetOff(l.b, l.i, o)];
  }

  ghost function Filled(r: Region, b: nat, i: nat, k: Word, o: Word): (r': Region)
    requires b < |r.buckets| && i < |r.buckets[b].entries|
  {
    r.(buckets := r.buckets[b := r.buckets[b].(entries := r.buckets[b].entries[i := Entry(k, o)])])
  }

  /** Writing an unpublished slot: two invisible stores. */
  lemma FillSlot(r: Region, b: nat, i: nat, k: Word, o: Word, h: nat)
    requires Inv(r) && b < |r.buckets| && b <= r.main + r.alloc && i < SLOTS && i !in r.buckets[b].occ
    ensures Along(r, [SetKey(b, i, k), SetOff(b, i, o)], h, {})
    ensures Run(r, [SetKey(b, i, k), SetOff(b, i, o)]) == Filled(r, b, i, k, o)
  {
    var r1 := Apply(r, SetKey(b, i, k));
    StoreUnpublished(r, SetKey(b, i, k), h, {});
    AlongOne(r, SetKey(b, i, k), h, {});
    StoreUnpublished(r1, SetOff(b, i, o), h, {});
    AlongOne(r1, SetOff(b, i, o), h, {});
    AlongThen(r, [SetKey(b, i, k)], [SetOff(b, i, o)], h, {});
    assert [SetKey(b, i, k)] + [SetOff(b, i, o)] == [SetKey(b, i, k), SetOff(b, i, o)];
    FillTwice(r, b, i, k, o);
  }

  lemma FillTwice(r: Region, b: nat, i: nat, k: Word, o: Word)
    requires b < |r.buckets| && i < |r.buckets[b].entries|
    ensures Apply(Apply(r, SetKey(b, i, k)), SetOff(b, i, o)) == Filled(r, b, i, k, o)
  {
    var e := r.buckets[b].entries;
    var e1 := e[i := e[i].(key := k)];
    assert e1[i := e1[i].(off := o)] == e[i := Entry(k, o)];
    var bk := r.buckets[b];
    assert r.buckets[b := bk.(entries := e1)][b := bk.(entries := e[i := Entry(k, o)])]
        == r.buckets[b := bk.(entries := e[i := Entry(k, o)])];
  }

  /** Bumping the entry counter is invisible and ends the operation. */
  lemma CountLast(r: Region, h: nat, k: Word, o: Word)
    requires Inv(r) && Maps(r, h, k, o)
    ensures Along(r, [AddCount], h, {(k, o)})
    ensures Maps(Run(r, [AddCount]), h, k, o)
  {
    StoreCount(r, h, {});
    AlongOne(r, AddCount, h, {});
    AlongHidden(r, [AddCount], h, k, {(k, o)});
  }

  /** Publishing a filled slot and counting it. */
  lemma PublishList(r: Region, h: nat, l: Loc, k: Word, o: Word)
    requires Inv(r) && h < r.main && l.b < |r.buckets| && l.b <= r.main + r.alloc && l.i < SLOTS
    requires Reach(r, h, l.b) && l.i !in r.buckets[l.b].occ && r.buckets[l.b].entries[l.i] == Entry(k, o)
    requires Ent(r, h, k) == None
    ensures Along(r, [OrOcc(l.b, {l.i})] + [AddCount], h, {(k, o)})
    ensures Maps(Run(r, [OrOcc(l.b, {l.i})] + [AddCount]), h, k, o)
  {
    StoreNewBit(r, l.b, l.i, k, o, h, {(k, o)});
    AlongOne(r, OrOcc(l.b, {l.i}), h, {(k, o)});
    CountLast(Apply(r, OrOcc(l.b, {l.i})), h, k, o);
    AlongThen(r, [OrOcc(l.b, {l.i})], [AddCount], h, {(k, o)});
  }

  lemma InsertList(r: Region, h: nat, l: Loc, k: Word, o: Word)
    requires Inv(r) && h < r.main && l.b < |r.buckets| && l.i < SLOTS
    requires Reach(r, h, l.b) && l.i !in r.buckets[l.b].occ && Ent(r, h, k) == None
    ensures Along(r, PlanStores(r, Insert(l), k, o), h, {(k, o)})
    ensures Maps(Run(r, PlanStores(r, Insert(l), k, o)), h, k, o)
  {
    var s1, s2 := InsertSplit(r, l, k, o);
    FreeAllocated(r, h, l.b);
    FillSlot(r, l.b, l.i, k, o, h);
    AlongHidden(r, s1, h, k, {(k, o)});
    ReachSame(r, Filled(r, l.b, l.i, k, o), h, l.b);
    PublishList(Filled(r, l.b, l.i, k, o), h, l, k, o);
    AlongThen(r, s1, s2, h, {(k, o)});
  }

  lemma InsertSplit(r: Region, l: Loc, k: Word, o: Word) returns (s1: seq<Store>, s2: seq<Store>)
    ensures s1 == [SetKey(l.b, l.i, k), SetOff(l.b, l.i, o)] && s2 == [OrOcc(l.b, {l.i})] + [AddCount]
    ensures PlanStores(r, Insert(l), k, o) == s1 + s2
  {
    s1, s2 := [SetKey(l.b, l.i, k), SetOff(l.b, l.i, o)], [OrOcc(l.b, {l.i})] + [AddCount];
  }

  /** The region after a detached overflow bucket `n` holding one pair has been prepared. */
  ghost function Prepared(r: Region, n: nat, k: Word, o: Word): (r': Region)
    requires r.main + n < |r.buckets|
  {
    r.(alloc := n, buckets := r.buckets[r.main + n := Bucket({0}, 0, EmptyBucket().entries[0 := Entry(k, o)])])
  }

  /** Claiming and filling the next overflow bucket: invisible, because nothing links to it. */
  lemma ClaimList(r: Region, h: nat, n: nat, k: Word, o: Word)
    requires Inv(r) && n == r.alloc + 1 <= r.over
    ensures Along(r, [SetAlloc(n), SetKey(r.main + n, 0, k), SetOff(r.main + n, 0, o)], h, {})
    ensures Run(r, [SetAlloc(n), SetKey(r.main + n, 0, k), SetOff(r.main + n, 0, o)])
         == Filled(r.(alloc := n), r.main + n, 0, k, o)
    ensures r.buckets[r.main + n] == EmptyBucket()
  {
    var s1, s2 := [SetAlloc(n)], [SetKey(r.main + n, 0, k), SetOff(r.main + n, 0, o)];
    StoreAlloc(r, n, h, {});
    AlongOne(r, SetAlloc(n), h, {});
    FillSlot(r.(alloc := n), r.main + n, 0, k, o, h);
    hide Along, Run, Inv, Evolves;
    AlongThen(r, s1, s2, h, {});
    assert s1 + s2 == [SetAlloc(n), SetKey(r.main + n, 0, k), SetOff(r.main + n, 0, o)];
  }

  lemma PrepareList(r: Region, h: nat, n: nat, k: Word, o: Word, ss: seq<Store>)
    requires Inv(r) && n == r.alloc + 1 <= r.over
    requires ss == [SetAlloc(n), SetKey(r.main + n, 0, k), SetOff(r.main + n, 0, o), SetHdr(r.main + n, {0}, 0)]
    ensures Along(r, ss, h, {}) && Run(r, ss) == Prepared(r, n, k, o)
  {
    var s1 := [SetAlloc(n), SetKey(r.main + n, 0, k), SetOff(r.main + n, 0, o)];
    var s2 := [SetHdr(r.main + n, {0}, 0)];
    ClaimList(r, h, n, k, o);
    AlongWhole(r, s1, h, {});
    PublishDetached(r, h, n, k, o);
    AlongThen(r, s1, s2, h, {});
    assert s1 + s2 == ss;
  }

  lemma PublishDetached(r: Region, h: nat, n: nat, k: Word, o: Word)
    requires Inv(r) && n == r.alloc + 1 <= r.over && r.buckets[r.main + n] == EmptyBucket()
    requires Inv(Filled(r.(alloc := n), r.main + n, 0, k, o))
    ensures var r3 := Filled(r.(alloc := n), r.main + n, 0, k, o);
            && Along(r3, [SetHdr(r.main + n, {0}, 0)], h, {})
            && Run(r3, [SetHdr(r.main + n, {0}, 0)]) == Prepared(r, n, k, o)
  {
    var r3 := Filled(r.(alloc := n), r.main + n, 0, k, o);
    assert Unlinked(r3, n);
    StoreDetachedHeader(r3, n, h, {});
    AlongOne(r3, SetHdr(r.main + n, {0}, 0), h, {});
    assert Apply(r3, SetHdr(r.main + n, {0}, 0)).buckets == Prepared(r, n, k, o).buckets;
  }

  lemma LinkList(r: Region, h: nat, n: nat, k: Word, o: Word, t: nat, p: Region)
    requires Inv(r) && h < r.main && n == r.alloc + 1 <= r.over && t == Tail(r, h)
    requires p == Prepared(r, n, k, o) && Inv(p) && Ent(p, h, k) == None
    ensures Along(p, [SetHdr(t, r.buckets[t].occ, n)] + [AddCount], h, {(k, o)})
    ensures Maps(Run(p, [SetHdr(t, r.buckets[t].occ, n)] + [AddCount]), h, k, o)
  {
    var s := SetHdr(t, r.buckets[t].occ, n);
    LinkStore(r, h, n, k, o, t, p);
    AlongOne(p, s, h, {(k, o)});
    CountLast(Apply(p, s), h, k, o);
    AlongThen(p, [s], [AddCount], h, {(k, o)});
  }

  lemma LinkStore(r: Region, h: nat, n: nat, k: Word, o: Word, t: nat, p: Region)
    requires Inv(r) && h < r.main && n == r.alloc + 1 <= r.over && t == Tail(r, h)
    requires p == Prepared(r, n, k, o) && Inv(p) && Ent(p, h, k) == None
    ensures Evolves(p, Apply(p, SetHdr(t, r.buckets[t].occ, n)), h, {(k, o)})
    ensures Maps(Apply(p, SetHdr(t, r.buckets[t].occ, n)), h, k, o)
  {
    FreeAllocated(r, h, t);
    assert r.buckets[r.main + n] == EmptyBucket();
    TailSame(r, p, h);
    assert Unlinked(p, n);
    StoreLink(p, t, n, k, o, h, {(k, o)});
    LinkShows(p, t, n, k, o, h);
  }

  lemma {:induction false} TailSame(r: Region, r': Region, b: nat)
    requires Shape(r) && Shape(r') && SameLinks(r, r') && b < |r.buckets|
    ensures Tail(r, b) == Tail(r', b)
    decreases |r.buckets| - b
  {
    if r.buckets[b].next != 0 {
      TailSame(r, r', r.main + r.buckets[b].next);
    }
  }

  lemma ExtendList(r: Region, h: nat, n: nat, t: nat, k: Word, o: Word)
    requires Inv(r) && h < r.main && Ent(r, h, k) == None && n == r.alloc + 1 <= r.over && t == Tail(r, h)
    ensures Along(r, PlanStores(r, Extend(n, t), k, o), h, {(k, o)})
    ensures Maps(Run(r, PlanStores(r, Extend(n, t), k, o)), h, k, o)
  {
    var s1, s2 := ExtendSplit(r, n, t, k, o);
    PrepareList(r, h, n, k, o, s1);
    AlongHidden(r, s1, h, k, {(k, o)});
    LinkList(r, h, n, k, o, t, Prepared(r, n, k, o));
    AlongThen(r, s1, s2, h, {(k, o)});
  }

  lemma ExtendSplit(r: Region, n: nat, t: nat, k: Word, o: Word) returns (s1: seq<Store>, s2: seq<Store>)
    requires t < |r.buckets|
    ensures s1 == [SetAlloc(n), SetKey(r.main + n, 0, k), SetOff(r.main + n, 0, o), SetHdr(r.main + n, {0}, 0)]
    ensures s2 == [SetHdr(t, r.buckets[t].occ, n)] + [AddCount]
    ensures PlanStores(r, Extend(n, t), k, o) == s1 + s2
  {
    s1 := [SetAlloc(n), SetKey(r.main + n, 0, k), SetOff(r.main + n, 0, o), SetHdr(r.main + n, {0}, 0)];
    s2 := [SetHdr(t, r.buckets[t].occ, n)] + [AddCount];
  }

  /** Running out of overflow buckets: the cursor is bumped and put back. */
  lemma ExhaustList(r: Region, h: nat, k: Word, o: Word, w: set<(Word, Word)>)
    requires Inv(r) && r.alloc >= r.over
    ensures Along(r, PlanStores(r, Full, k, o), h, w)
    ensures Run(r, PlanStores(r, Full, k, o)) == r
  {
    var a, b := SetAlloc(r.alloc + 1), SetAlloc(r.alloc);
    var r1 := Apply(r, a);
    hide Apply, PlanStores, Run, Inv, Along;
    BumpBack(r, k, o);
    StoreAlloc(r, r.alloc + 1, h, w);
    assert Inv(r1);
    StoreAlloc(r1, r.alloc, h, w);
    hide *;
    AlongOne(r, a, h, w);
    AlongOne(r1, b, h, w);
    AlongThen(r, [a], [b], h, w);
  }

  lemma BumpBack(r: Region, k: Word, o: Word)
    ensures var a, b := SetAlloc(r.alloc + 1), SetAlloc(r.alloc);
            && PlanStores(r, Full, k, o) == [a] + [b] && Apply(Apply(r, a), b) == r
            && Apply(r, a).alloc >= r.alloc && Apply(r, a).over == r.over
  {
  }

  /** Reached buckets have been handed out. */
  lemma FreeAllocated(r: Region, h: nat, b: nat)
    requires Inv(r) && h < r.main && Reach(r, h, b)
    ensures b < |r.buckets| && b <= r.main + r.alloc
  {
    ReachBound(r, h, b);
    if b != h {
      var p := Pred(r, h, b);
    }
  }

  // ---------------------------------------------------------------- main results

  /** What the chain walk has established when it settles on plan `p`. */
  ghost predicate Fits(r: Region, h: nat, k: Word, p: Plan)
    requires Shape(r) && h < r.main
  {
    match p
    case Update(l) => Pub(r, h, l.b, l.i, k)
    case Insert(l) =>
      Ent(r, h, k) == None && Reach(r, h, l.b) && l.b < |r.buckets| && l.i < SLOTS && l.i !in r.buckets[l.b].occ
    case Extend(n, t) => Ent(r, h, k) == None && n == r.alloc + 1 <= r.over && t == Tail(r, h)
    case Full => Ent(r, h, k) == None && r.alloc >= r.over
  }

  lemma PlanFits(r: Region, h: nat, k: Word)
    requires Shape(r) && h < r.main
    ensures Fits(r, h, k, PlanOf(r, h, k))
  {
  }

  lemma PlanAlong(r: Region, h: nat, k: Word, o: Word, p: Plan)
    requires Inv(r) && h < r.main && Fits(r, h, k, p)
    ensures Along(r, PlanStores(r, p, k, o), h, {(k, o)})
    ensures !p.Full? ==> Maps(Run(r, PlanStores(r, p, k, o)), h, k, o)
    ensures p.Full? ==> Run(r, PlanStores(r, p, k, o)) == r
  {
    match p
    case Update(l) => UpdateList(r, h, l, k, o);
    case Insert(l) => InsertList(r, h, l, k, o);
    case Extend(n, t) => ExtendList(r, h, n, t, k, o);
    case Full => ExhaustList(r, h, k, o, {(k, o)});
  }

  lemma UpsertAlong(r: Region, h: nat, k: Word, o: Word)
    requires Inv(r) && h < r.main
    ensures Along(r, UpsertStores(r, h, k, o), h, {(k, o)})
    ensures UpsertOk(r, h, k) ==> Maps(Upsert(r, h, k, o), h, k, o)
    ensures !UpsertOk(r, h, k) ==> Upsert(r, h, k, o) == r
  {
    PlanFits(r, h, k);
    PlanAlong(r, h, k, o, PlanOf(r, h, k));
  }

  /** `upsert` against the map it maintains. It fails only when the pool is exhausted, and then leaves
      memory as it was; otherwise exactly the given key changes. Every store on the way is harmless. */
  lemma UpsertCorrect(r: Region, h: nat, k: Word, o: Word)
    requires Inv(r) && h < r.main
    ensures Along(r, UpsertStores(r, h, k, o), h, {(k, o)})
    ensures Evolves(r, Upsert(r, h, k, o), h, {(k, o)})
    ensures UpsertOk(r, h, k) ==> Maps(Upsert(r, h, k, o), h, k, o)
    ensures !UpsertOk(r, h, k) ==> Upsert(r, h, k, o) == r
    ensures forall g: nat, q: Word :: g < r.main && (g != h || q != k) ==> Ent(Upsert(r, h, k, o), g, q) == Ent(r, g, q)
  {
    UpsertAlong(r, h, k, o);
    AlongWhole(r, UpsertStores(r, h, k, o), h, {(k, o)});
    forall g: nat, q: Word | g < r.main && (g != h || q != k)
      ensures Ent(Upsert(r, h, k, o), g, q) == Ent(r, g, q)
    {
      assert EntKept(r, Upsert(r, h, k, o), g, q, h, {(k, o)});
    }
  }

  /** `remove` turns the entry of a stored key into a tombstone and touches nothing else. A key whose
      slot already holds a tombstone is found again, so success means stored, not live. */
  lemma RemoveCorrect(r: Region, h: nat, k: Word)
    requires Inv(r) && h < r.main
    ensures Along(r, RemoveStores(r, h, k), h, {(k, TOMBSTONE)})
    ensures Evolves(r, Run(r, RemoveStores(r, h, k)), h, {(k, TOMBSTONE)})
    ensures var r' := Run(r, RemoveStores(r, h, k));
            && Val(r', h, k) == None
            && Ent(r', h, k).Some? == Ent(r, h, k).Some? == Find(r, h, k).Some?
            && (forall g: nat, q: Word :: g < r.main && (g != h || q != k) ==> Ent(r', g, q) == Ent(r, g, q))
  {
    var w := {(k, TOMBSTONE)};
    var r' := Run(r, RemoveStores(r, h, k));
    match Find(r, h, k) {
      case None =>
      case Some(l) => UpdateList(r, h, l, k, TOMBSTONE);
    }
    AlongWhole(r, RemoveStores(r, h, k), h, w);
    forall g: nat, q: Word | g < r.main && (g != h || q != k) ensures Ent(r', g, q) == Ent(r, g, q) {
      assert EntKept(r, r', g, q, h, w);
    }
  }

  // ---------------------------------------------------------------- when an overflow bucket is taken

  /** Every slot of every bucket on chain `h` is published. */
  ghost predicate ChainFull(r: Region, h: nat)
    requires Shape(r) && h < |r.buckets|
  {
    forall b: nat, i: nat :: Reach(r, h, b) && b < |r.buckets| && i < SLOTS ==> i in r.buckets[b].occ
  }

  lemma {:induction false} FullIff(r: Region, h: nat)
    requires Shape(r) && h < |r.buckets|
    ensures ChainFull(r, h) <==> FirstFree(r, h).None?
    decreases |r.buckets| - h
  {
    var bk := r.buckets[h];
    assert Reach(r, h, h);
    if FreeIn(bk, 0) < SLOTS {
      assert FreeIn(bk, 0) !in r.buckets[h].occ;
    } else {
      assert forall i: nat :: i < SLOTS ==> i in bk.occ;
      if bk.next != 0 {
        var n := r.main + bk.next;
        FullIff(r, n);
        assert forall b: nat :: Reach(r, h, b) <==> b == h || Reach(r, n, b);
      }
    }
  }

  /** Only a plan that extends the chain moves the cursor. */
  lemma PlanAlloc(r: Region, p: Plan, k: Word, o: Word)
    requires p.Extend? ==> p.t < |r.buckets|
    ensures var r' := Run(r, PlanStores(r, p, k, o)); r'.over == r.over && r'.alloc == if p.Extend? then p.n else r.alloc
  {
    var ss := PlanStores(r, p, k, o);
    match p
    case Update(_) => RunKeepsAlloc(r, ss);
    case Insert(_) => RunKeepsAlloc(r, ss);
    case Extend(n, _) => RunKeepsAlloc(Apply(r, ss[0]), ss[1..]);
    case Full =>
      BumpBack(r, k, o);
      RunAppend(r, ss[..1], ss[1..]);
      assert ss == ss[..1] + ss[1..];
  }

  lemma {:induction false} RunKeepsAlloc(r: Region, ss: seq<Store>)
    requires forall i :: 0 <= i < |ss| ==> !ss[i].SetAlloc?
    ensures Run(r, ss).alloc == r.alloc && Run(r, ss).over == r.over
    decreases |ss|
  {
    if ss != [] {
      RunKeepsAlloc(Apply(r, ss[0]), ss[1..]);
    }
  }

  /** An upsert succeeds iff the key is stored, its chain has an unpublished slot, or the pool has a bucket; and it
      takes a bucket from the pool iff only the last of these holds. */
  lemma UpsertRoom(r: Region, h: nat, k: Word, o: Word)
    requires Inv(r) && h < r.main
    ensures UpsertOk(r, h, k) <==> Ent(r, h, k).Some? || !ChainFull(r, h) || r.alloc < r.over
    ensures Upsert(r, h, k, o).over == r.over
    ensures Upsert(r, h, k, o).alloc
         == if Ent(r, h, k).None? && ChainFull(r, h) && r.alloc < r.over then r.alloc + 1 else r.alloc
  {
    FullIff(r, h);
    PlanAlloc(r, PlanOf(r, h, k), k, o);
    hide PlanStores, Run, FirstFree, Find, Tail;
  }
}
