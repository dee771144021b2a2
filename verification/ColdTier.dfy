/** The cold tier as it runs: chain walks, stores and counters changed in place. Each operation is
    proved to issue exactly the store list that the region modules reason about, in order. */
module ColdTier {
  import opened Options
  import opened ColdRegion
  import opened ColdSteps
  import opened ColdUpsert
  import opened ColdGroup
  import opened ColdCrash
  import opened ColdCount
  import opened ColdMap

  ghost function Tag(rid: nat, ss: seq<Store>): (ts: seq<(nat, Store)>)
    ensures |ts| == |ss|
  {
    seq(|ss|, i requires 0 <= i < |ss| => (rid, ss[i]))
  }

  lemma TagAppend(rid: nat, s1: seq<Store>, s2: seq<Store>)
    ensures Tag(rid, s1 + s2) == Tag(rid, s1) + Tag(rid, s2)
  {
  }

  /** One bucket of a chain walk: the first live slot holding `key` (7 if none) and, if none was seen
      before, the first slot that is not live. */
  method ScanBucket(bk: Bucket, live: set<nat>, key: Word, cur: nat, before: Option<Loc>)
    returns (hit: nat, reuse: Option<Loc>)
    requires BucketShape(bk.(occ := live))
    ensures hit == FindIn(bk.(occ := live), key, 0)
    ensures hit == SLOTS ==> reuse == if before.Some? then before
                                      else if FreeIn(bk.(occ := live), 0) < SLOTS
                                      then Some(Loc(cur, FreeIn(bk.(occ := live), 0))) else None
  {
    ghost var lb := bk.(occ := live);
    reuse := before;
    hit := 0;
    while hit < SLOTS
      invariant hit <= SLOTS && FindIn(lb, key, 0) == FindIn(lb, key, hit)
      invariant before.Some? ==> reuse == before
      invariant before.None? && reuse.None? ==> FreeIn(lb, 0) == FreeIn(lb, hit)
      invariant before.None? && reuse.Some? ==> FreeIn(lb, 0) < SLOTS && reuse == Some(Loc(cur, FreeIn(lb, 0)))
    {
      if hit in live {
        if bk.entries[hit].key == key {
          return;
        }
      } else if reuse.None? {
        reuse := Some(Loc(cur, hit));
      }
      hit := hit + 1;
    }
  }

  /** The chain functions, one bucket at a time. */
  lemma WalkUnfold(v: Region, cur: nat, key: Word)
    requires Shape(v) && cur < |v.buckets|
    ensures var bk := v.buckets[cur];
            var hit, free := FindIn(bk, key, 0), FreeIn(bk, 0);
            var next := v.main + bk.next;
            && Find(v, cur, key) == (if hit < SLOTS then Some(Loc(cur, hit))
                                     else if bk.next == 0 then None else Find(v, next, key))
            && FirstFree(v, cur) == (if free < SLOTS then Some(Loc(cur, free))
                                     else if bk.next == 0 then None else FirstFree(v, next))
            && Tail(v, cur) == if bk.next == 0 then cur else Tail(v, next)
  {
  }

  /** The single pass over a chain that `upsert` and `apply_bucket_group` make: the first live slot
      holding `key`, and otherwise the first reusable slot and the tail. A slot is live if its bit is set
      in the header or claimed earlier in the batch; `upsert` passes an empty dirty list. */
  method WalkChain(r: Region, d: seq<Dirty>, h: nat, key: Word)
    returns (found: Option<Loc>, reuse: Option<Loc>, tail: nat)
    requires Shape(r) && Shape(Overlay(r, d)) && h < r.main
    ensures found == Find(Overlay(r, d), h, key)
    ensures found.None? ==> reuse == FirstFree(Overlay(r, d), h) && tail == Tail(Overlay(r, d), h)
  {
    hide Find, FirstFree, Tail;
    ghost var v := Overlay(r, d);
    var cur := h;
    found, reuse, tail := None, None, h;
    while true
      invariant cur < |r.buckets| && found.None?
      invariant Find(v, h, key) == Find(v, cur, key) && Tail(v, h) == Tail(v, cur)
      invariant FirstFree(v, h) == if reuse.Some? then reuse else FirstFree(v, cur)
      decreases |r.buckets| - cur
    {
      assert BucketShape(v.buckets[cur]);
      var hit;
      hit, reuse := ScanBucket(r.buckets[cur], r.buckets[cur].occ + Claimed(d, cur), key, cur, reuse);
      WalkUnfold(v, cur, key);
      if hit < SLOTS {
        found := Some(Loc(cur, hit));
        return;
      }
      tail := cur;
      var next := r.buckets[cur].next;
      if next == 0 {
        return;
      }
      cur := r.main + next;
    }
  }

  /** The walk of `lookup` and `remove`: only published slots count. */
  method FindPublished(r: Region, h: nat, key: Word) returns (found: Option<Loc>)
    requires Shape(r) && h < r.main
    ensures found == Find(r, h, key)
  {
    var cur := h;
    while true
      invariant cur < |r.buckets| && Find(r, h, key) == Find(r, cur, key)
      decreases |r.buckets| - cur
    {
      assert BucketShape(r.buckets[cur]);
      var occ, next := r.buckets[cur].occ, r.buckets[cur].next;
      var i := 0;
      while i < SLOTS
        invariant i <= SLOTS && FindIn(r.buckets[cur], key, 0) == FindIn(r.buckets[cur], key, i)
      {
        if i in occ && r.buckets[cur].entries[i].key == key {
          return Some(Loc(cur, i));
        }
        i := i + 1;
      }
      if next == 0 {
        return None;
      }
      cur := r.main + next;
    }
  }

  class ColdTier {
    const geo: Geo
    var regions: Tier
    /** Every store issued since construction. */
    ghost var log: seq<(nat, Store)>

    ghost predicate Valid()
      reads this
    {
      TierInv(geo, regions)
    }

    constructor (geo: Geo)
      requires geo.main > 0
      ensures this.geo == geo && Valid() && AllCounted(geo, regions)
      ensures forall route: Word -> Word :: Homed(geo, route, regions)
    {
      this.geo := geo;
      regions := seq(REGIONS, _ => NewRegion(geo.main, geo.over));
      log := [];
      new;
      NewRegionEmpty(geo.main, geo.over);
      NewRegionCount(geo.main, geo.over, geo.main);
      assert forall rid :: 0 <= rid < REGIONS ==> RegionInv(geo, regions[rid]);
    }

    /** One store to persistent memory. */
    method Issue(rid: nat, s: Store)
      requires rid < |regions|
      modifies this
      ensures regions == old(regions)[rid := Apply(old(regions)[rid], s)]
      ensures log == old(log) + [(rid, s)]
    {
      regions := regions[rid := Apply(regions[rid], s)];
      log := log + [(rid, s)];
    }

    ghost predicate Ready(rid: nat)
      reads this
    {
      Valid() && rid < REGIONS && RegionInv(geo, regions[rid])
    }

    /** Region `rid` has run exactly the stores `ss`, and nothing else has changed. */
    twostate predicate Ran(rid: nat, ss: seq<Store>)
      requires old(|regions| == REGIONS) && rid < REGIONS
      reads this
    {
      && log == old(log) + Tag(rid, ss)
      && regions == old(regions)[rid := Run(old(regions)[rid], ss)]
    }

    method UpdateSlot(rid: nat, l: Loc, key: Word, off: Word)
      requires |regions| == REGIONS && rid < REGIONS
      modifies this
      ensures Ran(rid, PlanStores(old(regions)[rid], Update(l), key, off))
    {
      RunOne(regions[rid], SetOff(l.b, l.i, off));
      Issue(rid, SetOff(l.b, l.i, off));
    }

    /** Entry first, occupancy bit last. */
    method ClaimSlot(rid: nat, l: Loc, key: Word, off: Word)
      requires |regions| == REGIONS && rid < REGIONS
      modifies this
      ensures Ran(rid, PlanStores(old(regions)[rid], Insert(l), key, off))
    {
      RunFour(regions[rid], SetKey(l.b, l.i, key), SetOff(l.b, l.i, off), OrOcc(l.b, {l.i}), AddCount);
      Issue(rid, SetKey(l.b, l.i, key));
      Issue(rid, SetOff(l.b, l.i, off));
      Issue(rid, OrOcc(l.b, {l.i}));
      Issue(rid, AddCount);
    }

    /** A fresh overflow bucket, published before the tail is linked to it; or, with the pool exhausted,
        the cursor bumped and put back. */
    method ExtendChain(rid: nat, tail: nat, key: Word, off: Word) returns (ok: bool)
      requires Ready(rid) && tail < |regions[rid].buckets|
      requires regions[rid].alloc < geo.over ==> ExtendArgs(regions[rid], regions[rid].alloc + 1, tail)
      modifies this
      ensures ok == (old(regions)[rid].alloc < geo.over)
      ensures ok ==> Ran(rid, PlanStores(old(regions)[rid], Extend(old(regions)[rid].alloc + 1, tail), key, off))
      ensures !ok ==> Ran(rid, PlanStores(old(regions)[rid], Full, key, off))
    {
      var n := regions[rid].alloc + 1;
      ok := n <= geo.over;
      if !ok {
        RunTwo(regions[rid], SetAlloc(n), SetAlloc(n - 1));
        Issue(rid, SetAlloc(n));
        Issue(rid, SetAlloc(n - 1));
      } else {
        AttachBucket(rid, n, tail, key, off);
      }
    }

    method AttachBucket(rid: nat, n: nat, tail: nat, key: Word, off: Word)
      requires Ready(rid) && ExtendArgs(regions[rid], n, tail)
      modifies this
      ensures Ran(rid, PlanStores(old(regions)[rid], Extend(n, tail), key, off))
    {
      ghost var r, x := regions[rid], regions[rid].main + n;
      PrepareBucket(rid, n, key, off);
      TailUntouched(r, n, tail, key, off, regions[rid]);
      var occ := regions[rid].buckets[tail].occ;
      hide Apply, Run, Tag;
      TagSix(rid, SetAlloc(n), SetKey(x, 0, key), SetOff(x, 0, off), SetHdr(x, {0}, 0), SetHdr(tail, occ, n), AddCount);
      RunSix(r, SetAlloc(n), SetKey(x, 0, key), SetOff(x, 0, off), SetHdr(x, {0}, 0), SetHdr(tail, occ, n), AddCount);
      Issue(rid, SetHdr(tail, occ, n));
      Issue(rid, AddCount);
    }

    /** The fresh bucket: cursor, entry, then its own header. */
    method PrepareBucket(rid: nat, n: nat, key: Word, off: Word)
      requires Ready(rid)
      modifies this
      ensures var r, x := old(regions)[rid], old(regions)[rid].main + n;
              && regions == old(regions)[rid := Apply(Apply(Apply(Apply(r, SetAlloc(n)), SetKey(x, 0, key)), SetOff(x, 0, off)),
                                                      SetHdr(x, {0}, 0))]
              && log == old(log) + [(rid, SetAlloc(n)), (rid, SetKey(x, 0, key)), (rid, SetOff(x, 0, off)), (rid, SetHdr(x, {0}, 0))]
    {
      var x := geo.main + n;
      hide Apply;
      Issue(rid, SetAlloc(n));
      Issue(rid, SetKey(x, 0, key));
      Issue(rid, SetOff(x, 0, off));
      Issue(rid, SetHdr(x, {0}, 0));
    }

    /** Insert or update; false when the overflow pool is exhausted. The stores issued are exactly
        `UpsertStores`, in that order. */
    method Upsert(fp: Word, key: Word, off: Word) returns (ok: bool)
      requires Valid() && off != TOMBSTONE
      modifies this
      ensures Valid()
      ensures var rid, h := RegionIdOf(fp), BucketIdOf(geo, fp);
              && old(Ready(rid))
              && ok == UpsertOk(old(regions)[rid], h, key)
              && Ran(rid, UpsertStores(old(regions)[rid], h, key, off))
    {
      hide Run, Tag, Find, FirstFree, Tail, PlanOf, PlanStores, UpsertStores, UpsertOk;
      var rid, h := RegionIdOf(fp), BucketIdOf(geo, fp);
      var r := regions[rid];
      assert Ready(rid);
      StartState(r, h, {});
      var found, reuse, tail := WalkChain(r, [], h, key);
      UpsertCases(r, h, key, off, PlanOf(r, h, key));
      UpsertRegion(geo, r, h, key, off);
      if found.Some? {
        UpdateSlot(rid, found.value, key, off);
        ok := true;
      } else if reuse.Some? {
        ClaimSlot(rid, reuse.value, key, off);
        ok := true;
      } else {
        ok := ExtendChain(rid, tail, key, off);
      }
      assert forall x :: 0 <= x < REGIONS && x != rid ==> RegionInv(geo, old(regions)[x]);
    }

    /** Lookup at rest: route by `fp`, match by `key`. */
    method Lookup(fp: Word, key: Word) returns (res: Option<Word>)
      requires Valid()
      ensures var rid, h := RegionIdOf(fp), BucketIdOf(geo, fp);
              Ready(rid) && res == Val(regions[rid], h, key)
    {
      var rid, h := RegionIdOf(fp), BucketIdOf(geo, fp);
      assert Ready(rid);
      var found := FindPublished(regions[rid], h, key);
      if found.None? {
        return None;
      }
      var off := regions[rid].buckets[found.value.b].entries[found.value.i].off;
      res := if off == TOMBSTONE then None else Some(off);
    }

    /** Tombstone a published key; true iff the key has a published slot, live or already tombstoned. */
    method Remove(fp: Word, key: Word) returns (ok: bool)
      requires Valid()
      modifies this
      ensures Valid()
      ensures var rid, h := RegionIdOf(fp), BucketIdOf(geo, fp);
              && old(Ready(rid))
              && ok == Ent(old(regions)[rid], h, key).Some?
              && Ran(rid, RemoveStores(old(regions)[rid], h, key))
    {
      var rid, h := RegionIdOf(fp), BucketIdOf(geo, fp);
      assert Ready(rid);
      var found := FindPublished(regions[rid], h, key);
      ok := found.Some?;
      if ok {
        UpdateSlot(rid, found.value, key, TOMBSTONE);
      }
      StepRegion(geo, old(regions), Finish(rid, Del(h, key)), h, key);
      assert forall x :: 0 <= x < REGIONS && x != rid ==> RegionInv(geo, old(regions)[x]);
    }

    // -------------------------------------------------------------- batched writes

    /** Phase 1 of the group for one pair; the occupancy bit of a new slot waits in the dirty list. */
    method StagePair(rid: nat, ghost h: nat, key: Word, off: Word, dirty: seq<Dirty>, found: Option<Loc>,
                     reuse: Option<Loc>, tail: nat, ghost p: Plan) returns (dirty': seq<Dirty>, ok: bool)
      requires Ready(rid) && h < geo.main && Inv(Overlay(regions[rid], dirty))
      requires p == PlanOf(Overlay(regions[rid], dirty), h, key)
      requires found == Find(Overlay(regions[rid], dirty), h, key)
      requires found.None? ==> reuse == FirstFree(Overlay(regions[rid], dirty), h)
                               && tail == Tail(Overlay(regions[rid], dirty), h)
      modifies this
      ensures p.Extend? ==> p.t < |old(regions)[rid].buckets|
      ensures Ran(rid, EntryStores(old(regions)[rid], p, key, off))
      ensures ok == !p.Full? && dirty' == EntryDirty(old(regions)[rid], dirty, p)
    {
      hide Run, Tag, Find, FirstFree, Tail, PlanOf, PlanStores, UpsertOk, UpsertStores;
      ghost var r := regions[rid];
      UpsertCases(Overlay(r, dirty), h, key, off, p);
      ok := true;
      if found.Some? {
        StageUpdate(rid, found.value, key, off);
        dirty' := Mark(dirty, found.value.b, {});
      } else if reuse.Some? {
        StageInsert(rid, reuse.value, key, off);
        dirty' := Mark(dirty, reuse.value.b, {reuse.value.i});
      } else {
        var n := regions[rid].alloc + 1;
        if n > geo.over {
          StageNone(rid, key, off);
          dirty', ok := dirty, false;
        } else {
          FreshBelow(r, dirty, geo.main + n);
          StageBucket(rid, n, tail, key, off);
          dirty' := Mark(Mark(dirty, geo.main + n, {0}), tail, {});
        }
      }
    }

    method StageUpdate(rid: nat, l: Loc, key: Word, off: Word)
      requires |regions| == REGIONS && rid < REGIONS
      modifies this
      ensures Ran(rid, EntryStores(old(regions)[rid], Update(l), key, off))
    {
      RunOne(regions[rid], SetOff(l.b, l.i, off));
      Issue(rid, SetOff(l.b, l.i, off));
    }

    method StageInsert(rid: nat, l: Loc, key: Word, off: Word)
      requires |regions| == REGIONS && rid < REGIONS
      modifies this
      ensures Ran(rid, EntryStores(old(regions)[rid], Insert(l), key, off))
    {
      RunThree(regions[rid], SetKey(l.b, l.i, key), SetOff(l.b, l.i, off), AddCount);
      Issue(rid, SetKey(l.b, l.i, key));
      Issue(rid, SetOff(l.b, l.i, off));
      Issue(rid, AddCount);
    }

    method StageNone(rid: nat, key: Word, off: Word)
      requires |regions| == REGIONS && rid < REGIONS
      modifies this
      ensures Ran(rid, EntryStores(old(regions)[rid], Full, key, off))
    {
      var n := regions[rid].alloc + 1;
      RunTwo(regions[rid], SetAlloc(n), SetAlloc(n - 1));
      Issue(rid, SetAlloc(n));
      Issue(rid, SetAlloc(n - 1));
    }

    /** The group links a new overflow bucket before the bucket's own occupancy bit is set. */
    method StageBucket(rid: nat, n: nat, tail: nat, key: Word, off: Word)
      requires Ready(rid) && ExtendArgs(regions[rid], n, tail)
      modifies this
      ensures Ran(rid, EntryStores(old(regions)[rid], Extend(n, tail), key, off))
    {
      ghost var r := regions[rid];
      var x := geo.main + n;
      Issue(rid, SetAlloc(n));
      Issue(rid, SetKey(x, 0, key));
      Issue(rid, SetOff(x, 0, off));
      TailUntouched3(r, n, tail, key, off, regions[rid]);
      var occ := regions[rid].buckets[tail].occ;
      RunFive(r, SetAlloc(n), SetKey(x, 0, key), SetOff(x, 0, off), SetHdr(tail, occ, n), AddCount);
      Issue(rid, SetHdr(tail, occ, n));
      Issue(rid, AddCount);
    }

    /** Phase 2 of the group: flip the held-back bits. */
    method FlipBits(rid: nat, dirty: seq<Dirty>)
      requires |regions| == REGIONS && rid < REGIONS
      modifies this
      ensures Ran(rid, FlipStores(dirty))
    {
      ghost var base, r, log0 := regions, regions[rid], log;
      var j := 0;
      ghost var done: seq<Store> := [];
      hide Run, Tag, FlipStores;
      RunNothing(rid, r);
      assert dirty[0..] == dirty && [] + FlipStores(dirty) == FlipStores(dirty);
      while j < |dirty|
        invariant j <= |dirty| && FlipStores(dirty) == done + FlipStores(dirty[j..])
        invariant log == log0 + Tag(rid, done) && regions == base[rid := Run(r, done)]
      {
        ghost var ss := FlipOne(rid, dirty[j]);
        FlipNext(dirty, j, done, ss);
        RunAppend(r, done, ss);
        TagAppend(rid, done, ss);
        done := done + ss;
        j := j + 1;
      }
      FlipUnfolds(dirty[j..]);
      assert done + [] == done;
    }

    /** The claimed bits of one bucket, in one store; none if the batch claimed none there. */
    method FlipOne(rid: nat, e: Dirty) returns (ghost ss: seq<Store>)
      requires |regions| == REGIONS && rid < REGIONS
      modifies this
      ensures ss == FlipHead(e) && Ran(rid, ss)
    {
      ss := FlipHead(e);
      if e.bits != {} {
        RunOne(regions[rid], OrOcc(e.b, e.bits));
        Issue(rid, OrOcc(e.b, e.bits));
      } else {
        RunNothing(rid, regions[rid]);
      }
    }

    /** A run of pairs for one chain. The stores issued are exactly `GroupStores`, in that order. */
    method ApplyBucketGroup(rid: nat, bid: nat, es: seq<Pair>) returns (written: nat)
      requires Valid() && rid < REGIONS && bid < geo.main
      modifies this
      ensures Valid() && old(Ready(rid))
      ensures written == GroupWritten(old(regions)[rid], bid, es)
      ensures Ran(rid, GroupStores(old(regions)[rid], bid, es))
    {
      hide Run, Tag, Find, FirstFree, Tail, PlanOf, Inv, Staged, Stage, EntryStores, EntryDirty, FlipStores, Evolves;
      ghost var r, log0, w := regions[rid], log, PairSet(es);
      assert Ready(rid);
      ghost var all := GroupStart(r, bid, es);
      var dirty: seq<Dirty> := [];
      ghost var done: seq<Store> := [];
      written := 0;
      var more := true;
      RunNothing(rid, r);
      while more && written < |es|
        invariant written <= |es| && |regions| == REGIONS && RegionInv(geo, regions[rid])
        invariant regions == old(regions)[rid := Run(r, done)] && log == log0 + Tag(rid, done)
        invariant more ==> StagedSoFar(all, regions[rid], dirty, bid, es[written..], w, done, written)
        invariant !more ==> all == Phase1(done, dirty, written)
        decreases more, |es| - written
      {
        var e := es[written];
        ghost var cur := regions[rid];
        GroupShapes(cur, dirty, bid, w);
        ghost var p := PlanOf(Overlay(cur, dirty), bid, e.key);
        var found, reuse, tail := WalkChain(regions[rid], dirty, bid, e.key);
        StagedNext(all, cur, dirty, bid, es, w, done, written, p);
        StagedRegion(geo, cur, dirty, bid, e.key, e.off, w, p);
        var d1, ok := StagePair(rid, bid, e.key, e.off, dirty, found, reuse, tail, p);
        ghost var ss := EntryStores(cur, p, e.key, e.off);
        RunAppend(r, done, ss);
        TagAppend(rid, done, ss);
        done := done + ss;
        dirty, more := d1, ok;
        written := if ok then written + 1 else written;
      }
      if more {
        StagedEnd(all, regions[rid], dirty, bid, es, w, done);
      }
      FlipBits(rid, dirty);
      RunAppend(r, done, FlipStores(dirty));
      TagAppend(rid, done, FlipStores(dirty));
      GroupRegion(geo, r, bid, es);
      assert forall x :: 0 <= x < REGIONS && x != rid ==> RegionInv(geo, old(regions)[x]);
    }
  }

  /** Phase 1 as far as it has come: `done` is issued, and the rest is what `Stage` makes of `es`. */
  ghost predicate StagedSoFar(all: Phase1, r: Region, d: seq<Dirty>, h: nat, es: seq<Pair>, w: set<(Word, Word)>,
                              done: seq<Store>, k: nat) {
    && GroupState(r, d, h, w) && PairsIn(es, w)
    && var rest := Stage(r, d, h, es, w);
       all == Phase1(done + rest.stores, rest.dirty, k + rest.written)
  }

  lemma TagSix(rid: nat, a: Store, b: Store, c: Store, d: Store, e: Store, f: Store)
    ensures Tag(rid, [a, b, c, d, e, f]) == [(rid, a), (rid, b), (rid, c), (rid, d)] + [(rid, e)] + [(rid, f)]
  {
  }

  function FlipHead(e: Dirty): (ss: seq<Store>) { if e.bits == {} then [] else [OrOcc(e.b, e.bits)] }

  lemma FlipUnfolds(d: seq<Dirty>)
    ensures FlipStores(d) == if d == [] then [] else FlipHead(d[0]) + FlipStores(d[1..])
  {
  }

  lemma FlipNext(d: seq<Dirty>, j: nat, done: seq<Store>, ss: seq<Store>)
    requires j < |d| && ss == FlipHead(d[j])
    ensures done + FlipStores(d[j..]) == done + ss + FlipStores(d[j + 1..])
  {
    FlipUnfolds(d[j..]);
    assert d[j..][1..] == d[j + 1..];
    hide FlipStores;
    assert done + (ss + FlipStores(d[j + 1..])) == done + ss + FlipStores(d[j + 1..]);
  }

  lemma RunNothing(rid: nat, r: Region)
    ensures Run(r, []) == r && Tag(rid, []) == []
  {
  }

  lemma GroupStart(r: Region, h: nat, es: seq<Pair>) returns (all: Phase1)
    requires Inv(r) && h < r.main
    ensures StagedSoFar(all, r, [], h, es[0..], PairSet(es), [], 0)
    ensures GroupStores(r, h, es) == all.stores + FlipStores(all.dirty) && GroupWritten(r, h, es) == all.written
  {
    StartState(r, h, PairSet(es));
    all := Stage(r, [], h, es, PairSet(es));
    assert es[0..] == es;
    assert [] + all.stores == all.stores;
  }

  lemma GroupShapes(r: Region, d: seq<Dirty>, h: nat, w: set<(Word, Word)>)
    requires GroupState(r, d, h, w)
    ensures Shape(r) && Shape(Overlay(r, d)) && Inv(Overlay(r, d)) && h < r.main
  {
  }

  lemma StagedNext(all: Phase1, r: Region, d: seq<Dirty>, h: nat, es: seq<Pair>, w: set<(Word, Word)>,
                   done: seq<Store>, k: nat, p: Plan)
    requires k < |es| && StagedSoFar(all, r, d, h, es[k..], w, done, k)
    requires p == PlanOf(Overlay(r, d), h, es[k].key)
    ensures p.Extend? ==> p.t < |r.buckets|
    ensures var ss := EntryStores(r, p, es[k].key, es[k].off);
            && (p.Full? ==> all == Phase1(done + ss, EntryDirty(r, d, p), k))
            && (!p.Full? ==> StagedSoFar(all, Run(r, ss), EntryDirty(r, d, p), h, es[k + 1..], w, done + ss, k + 1))
  {
    hide Stage, EntryStores, PlanOf, Run, GroupState, EntryDirty, PairsIn, Overlay, Evolves;
    StageUnfold(r, d, h, es[k..], w, p);
    PairsTail(es, k, w);
    assert es[k..][1..] == es[k + 1..];
    var ss := EntryStores(r, p, es[k].key, es[k].off);
    if p.Full? {
      FullDirty(r, d);
    } else {
      var rest := Stage(Run(r, ss), EntryDirty(r, d, p), h, es[k + 1..], w);
      assert done + (ss + rest.stores) == done + ss + rest.stores;
    }
  }

  lemma PairsTail(es: seq<Pair>, k: nat, w: set<(Word, Word)>)
    requires k < |es| && PairsIn(es[k..], w)
    ensures PairsIn(es[k + 1..], w)
  {
    var a, b := es[k..], es[k + 1..];
    forall m | 0 <= m < |b| ensures (b[m].key, b[m].off) in w {
      assert b[m] == a[m + 1];
    }
  }

  lemma FullDirty(r: Region, d: seq<Dirty>)
    ensures EntryDirty(r, d, Full) == d
  {
  }

  lemma StagedRegion(geo: Geo, r: Region, d: seq<Dirty>, h: nat, k: Word, o: Word, w: set<(Word, Word)>, p: Plan)
    requires GroupState(r, d, h, w) && (k, o) in w && p == PlanOf(Overlay(r, d), h, k) && RegionInv(geo, r)
    requires p.Extend? ==> p.t < |r.buckets|
    ensures RegionInv(geo, Run(r, EntryStores(r, p, k, o)))
  {
    EntryStep(r, d, h, k, o, w, p);
    AlongWhole(r, EntryStores(r, p, k, o), h, w);
  }

  lemma StagedEnd(all: Phase1, r: Region, d: seq<Dirty>, h: nat, es: seq<Pair>, w: set<(Word, Word)>, done: seq<Store>)
    requires StagedSoFar(all, r, d, h, es[|es|..], w, done, |es|)
    ensures all == Phase1(done, d, |es|)
  {
    assert done + [] == done;
  }

  lemma GroupRegion(geo: Geo, r: Region, h: nat, es: seq<Pair>)
    requires RegionInv(geo, r) && h < r.main
    ensures RegionInv(geo, Run(r, GroupStores(r, h, es)))
  {
    GroupRefines(r, h, es);
    AlongWhole(r, GroupStores(r, h, es), h, PairSet(es));
  }

  /** The plan of `upsert`, read off the results of the chain walk. */
  lemma UpsertCases(r: Region, h: nat, k: Word, o: Word, p: Plan)
    requires Inv(r) && h < r.main && p == PlanOf(r, h, k)
    ensures UpsertOk(r, h, k) == !p.Full? && InBounds(r, h, k, p)
    ensures UpsertStores(r, h, k, o) == PlanStores(r, p, k, o)
    ensures Find(r, h, k).Some? ==> p == Update(Find(r, h, k).value)
    ensures Find(r, h, k).None? && FirstFree(r, h).Some? ==> p == Insert(FirstFree(r, h).value)
    ensures Find(r, h, k).None? && FirstFree(r, h).None? ==>
              p == if r.alloc < r.over then Extend(r.alloc + 1, Tail(r, h)) else Full
  {
    PlanBounds(r, h, k, p);
  }

  lemma UpsertRegion(geo: Geo, r: Region, h: nat, k: Word, o: Word)
    requires RegionInv(geo, r) && h < r.main
    ensures RegionInv(geo, Run(r, UpsertStores(r, h, k, o)))
  {
    UpsertCorrect(r, h, k, o);
  }

  lemma TailUntouched3(r: Region, n: nat, t: nat, k: Word, o: Word, r3: Region)
    requires Inv(r) && ExtendArgs(r, n, t)
    requires r3 == Apply(Apply(Apply(r, SetAlloc(n)), SetKey(r.main + n, 0, k)), SetOff(r.main + n, 0, o))
    ensures |r3.buckets| == |r.buckets| && r3.buckets[t] == r.buckets[t]
  {
  }

  /** Phase 1 unfolds into the current pair and the rest of the group. */
  lemma StageUnfold(r: Region, d: seq<Dirty>, h: nat, es: seq<Pair>, w: set<(Word, Word)>, p: Plan)
    requires GroupState(r, d, h, w) && es != [] && PairsIn(es, w) && p == PlanOf(Overlay(r, d), h, es[0].key)
    ensures p.Extend? ==> p.t < |r.buckets|
    ensures var ss := EntryStores(r, p, es[0].key, es[0].off);
            && Evolves(r, Run(r, ss), h, w)
            && (p.Full? ==> Stage(r, d, h, es, w) == Phase1(ss, d, 0))
            && (!p.Full? ==>
                  && GroupState(Run(r, ss), EntryDirty(r, d, p), h, w)
                  && var rest := Stage(Run(r, ss), EntryDirty(r, d, p), h, es[1..], w);
                     Stage(r, d, h, es, w) == Phase1(ss + rest.stores, rest.dirty, rest.written + 1))
  {
    EntryStep(r, d, h, es[0].key, es[0].off, w, p);
    AlongWhole(r, EntryStores(r, p, es[0].key, es[0].off), h, w);
  }

  lemma RunTwo(r: Region, s1: Store, s2: Store)
    ensures Run(r, [s1, s2]) == Apply(Apply(r, s1), s2)
  {
    assert [s1, s2][1..] == [s2];
    RunOne(Apply(r, s1), s2);
  }

  lemma {:induction false} NewRegionCount(main: nat, over: nat, m: nat)
    requires main > 0 && m <= main
    ensures Shape(NewRegion(main, over)) && SlotCount(NewRegion(main, over), m) == 0
  {
    if m > 0 {
      NewRegionCount(main, over, m - 1);
    }
  }

  /** Filling the new bucket leaves the tail's header alone. */
  lemma TailUntouched(r: Region, n: nat, t: nat, k: Word, o: Word, r4: Region)
    requires Inv(r) && ExtendArgs(r, n, t)
    requires r4 == Apply(Apply(Apply(Apply(r, SetAlloc(n)), SetKey(r.main + n, 0, k)), SetOff(r.main + n, 0, o)),
                         SetHdr(r.main + n, {0}, 0))
    ensures |r4.buckets| == |r.buckets| && r4.buckets[t] == r.buckets[t]
  {
  }
}
