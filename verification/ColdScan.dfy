/** Region-parallel scan of a quiescent cold tier: every live key exactly once. */
module ColdScan {
  import opened Options
  import opened ColdRegion
  import opened ColdMap

  type Visit = (Word, Word)

  /** Visits of slots `i..6` of a bucket: published and not tombstoned. */
  function BucketVisits(bk: Bucket, i: nat): (vs: seq<Visit>)
    requires BucketShape(bk) && i <= SLOTS
    decreases SLOTS - i
  {
    if i == SLOTS then [] else SlotVisit(bk, i) + BucketVisits(bk, i + 1)
  }

  ghost function ChainVisits(r: Region, b: nat): (vs: seq<Visit>)
    requires Shape(r) && b < |r.buckets|
    decreases |r.buckets| - b
  {
    BucketVisits(r.buckets[b], 0)
    + if r.buckets[b].next == 0 then [] else ChainVisits(r, r.main + r.buckets[b].next)
  }

  /** Visits of the chains `m..main-1`. */
  ghost function RegionVisits(r: Region, m: nat): (vs: seq<Visit>)
    requires Shape(r) && m <= r.main
    decreases r.main - m
  {
    if m == r.main then [] else ChainVisits(r, m) + RegionVisits(r, m + 1)
  }

  ghost function Times(vs: seq<Visit>, k: Word, o: Word): (n: nat) {
    multiset(vs)[(k, o)]
  }

  lemma TimesAppend(a: seq<Visit>, b: seq<Visit>, k: Word, o: Word)
    ensures Times(a + b, k, o) == Times(a, k, o) + Times(b, k, o)
  {
    assert multiset(a + b) == multiset(a) + multiset(b);
  }

  lemma TimesEmpty(k: Word, o: Word)
    ensures Times([], k, o) == 0
  {
  }

  /** The visit a single slot makes, if any. */
  function SlotVisit(bk: Bucket, i: nat): (vs: seq<Visit>)
    requires BucketShape(bk) && i < SLOTS
  {
    if i in bk.occ && bk.entries[i].off != TOMBSTONE then [(bk.entries[i].key, bk.entries[i].off)] else []
  }

  lemma SlotUnfold(bk: Bucket, i: nat)
    requires BucketShape(bk) && i <= SLOTS
    ensures BucketVisits(bk, i) == if i == SLOTS then [] else SlotVisit(bk, i) + BucketVisits(bk, i + 1)
  {
  }

  lemma SlotTimes(bk: Bucket, i: nat, k: Word, o: Word)
    requires BucketShape(bk) && i < SLOTS
    ensures Times(SlotVisit(bk, i), k, o) == Once(Holds(bk, i, k) && bk.entries[i].off == o != TOMBSTONE)
  {
  }

  ghost function Once(c: bool): nat { if c then 1 else 0 }

  // ---------------------------------------------------------------- how often a pair is visited

  predicate Holds(bk: Bucket, i: nat, k: Word)
    requires BucketShape(bk)
  {
    i in bk.occ && bk.entries[i].key == k
  }

  /** A bucket that holds a key once visits it once. */
  lemma {:induction false} BucketTimes(bk: Bucket, i: nat, k: Word, o: Word)
    requires BucketShape(bk) && i <= SLOTS
    requires forall a, b :: i <= a < SLOTS && i <= b < SLOTS && Holds(bk, a, k) && Holds(bk, b, k) ==> a == b
    ensures var j := FindIn(bk, k, i);
            Times(BucketVisits(bk, i), k, o) == Once(j < SLOTS && bk.entries[j].off == o != TOMBSTONE)
    decreases SLOTS - i
  {
    hide Times, BucketVisits, SlotVisit;
    SlotUnfold(bk, i);
    if i == SLOTS {
      TimesEmpty(k, o);
    } else {
      BucketTimes(bk, i + 1, k, o);
      SlotTimes(bk, i, k, o);
      TimesAppend(SlotVisit(bk, i), BucketVisits(bk, i + 1), k, o);
      if Holds(bk, i, k) && FindIn(bk, k, i + 1) < SLOTS {
        assert Holds(bk, FindIn(bk, k, i + 1), k);
      }
    }
  }

  /** Bucket `b` on chain `h` holds key `k` at most once. */
  lemma BucketOnce(r: Region, h: nat, b: nat, k: Word, o: Word)
    requires Inv(r) && h < r.main && Reach(r, h, b) && b < |r.buckets|
    ensures var bk := r.buckets[b];
            var j := FindIn(bk, k, 0);
            Times(BucketVisits(bk, 0), k, o) == Once(j < SLOTS && bk.entries[j].off == o != TOMBSTONE)
  {
    var bk := r.buckets[b];
    forall x, y | 0 <= x < SLOTS && 0 <= y < SLOTS && Holds(bk, x, k) && Holds(bk, y, k)
      ensures x == y
    {
      assert Pub(r, h, b, x, k) && Pub(r, h, b, y, k);
    }
    BucketTimes(bk, 0, k, o);
  }

  /** From bucket `b` of chain `h` on, a key is visited once iff it is stored there and live. */
  lemma {:induction false} ChainTimes(r: Region, h: nat, b: nat, k: Word, o: Word)
    requires Inv(r) && h < r.main && Reach(r, h, b) && b < |r.buckets|
    ensures Times(ChainVisits(r, b), k, o) == Once(Val(r, b, k) == Some(o))
    decreases |r.buckets| - b
  {
    hide Times, BucketVisits;
    BucketOnce(r, h, b, k, o);
    var bk := r.buckets[b];
    if bk.next != 0 {
      var n := r.main + bk.next;
      assert Reach(r, b, n) by { assert Reach(r, n, n); }
      ReachTrans(r, h, b, n);
      ChainTimes(r, h, n, k, o);
      TimesAppend(BucketVisits(bk, 0), ChainVisits(r, n), k, o);
      ValSplit(r, h, b, k, o);
    } else {
      assert ChainVisits(r, b) == BucketVisits(bk, 0);
    }
  }

  /** A key live from bucket `b` on is live in `b` or live further down, never both. */
  lemma ValSplit(r: Region, h: nat, b: nat, k: Word, o: Word)
    requires Inv(r) && h < r.main && Reach(r, h, b) && b < |r.buckets| && r.buckets[b].next != 0
    requires Reach(r, h, r.main + r.buckets[b].next)
    ensures var bk := r.buckets[b];
            var j := FindIn(bk, k, 0);
            Once(Val(r, b, k) == Some(o))
            == Once(j < SLOTS && bk.entries[j].off == o != TOMBSTONE) + Once(Val(r, r.main + bk.next, k) == Some(o))
  {
    var j := FindIn(r.buckets[b], k, 0);
    if j < SLOTS {
      AbsentLater(r, h, b, r.main + r.buckets[b].next, j, k);
    }
  }

  /** A key found in bucket `b` is nowhere further down the chain. */
  lemma AbsentLater(r: Region, h: nat, b: nat, n: nat, i: nat, k: Word)
    requires Inv(r) && h < r.main && Reach(r, h, b) && b < |r.buckets| && r.buckets[b].next != 0
    requires n == r.main + r.buckets[b].next && i in r.buckets[b].occ && r.buckets[b].entries[i].key == k
    requires Reach(r, h, n)
    ensures Find(r, n, k) == None
  {
    if Find(r, n, k).Some? {
      var l := Find(r, n, k).value;
      ReachTrans(r, h, n, l.b);
      ReachBound(r, n, l.b);
      assert Pub(r, h, l.b, l.i, k) && Pub(r, h, b, i, k);
    }
  }

  /** Chains `m..` of a region: a key that is stored at most on chain `h` is visited once iff live there. */
  lemma {:induction false} RegionTimes(r: Region, m: nat, h: nat, k: Word, o: Word)
    requires Inv(r) && m <= r.main && h < r.main
    requires forall g: nat :: g < r.main && g != h ==> Ent(r, g, k) == None
    ensures Times(RegionVisits(r, m), k, o) == Once(m <= h && Val(r, h, k) == Some(o))
    decreases r.main - m
  {
    hide Times, ChainVisits;
    if m == r.main {
      TimesEmpty(k, o);
    } else {
      ChainTimes(r, m, m, k, o);
      RegionTimes(r, m + 1, h, k, o);
      TimesAppend(ChainVisits(r, m), RegionVisits(r, m + 1), k, o);
    }
  }

  /** Over the visited regions `done`, every live key at home there is visited exactly once, with its
      current offset, and nothing else is visited. */
  ghost predicate Exactly(geo: Geo, route: Word -> Word, t: Tier, vs: seq<Visit>, done: set<nat>)
    requires TierInv(geo, t)
  {
    forall k: Word, o: Word ::
      Times(vs, k, o) == Once(RegionIdOf(route(k)) in done && TierVal(geo, route, t, k) == Some(o))
  }

  lemma ExactlyAdd(geo: Geo, route: Word -> Word, t: Tier, vs: seq<Visit>, done: set<nat>, rid: nat)
    requires TierInv(geo, t) && Homed(geo, route, t) && Exactly(geo, route, t, vs, done)
    requires rid < REGIONS && rid !in done && RegionInv(geo, t[rid])
    ensures Exactly(geo, route, t, vs + RegionVisits(t[rid], 0), done + {rid})
  {
    hide Times, RegionVisits;
    forall k: Word, o: Word
      ensures Times(vs + RegionVisits(t[rid], 0), k, o)
           == Once(RegionIdOf(route(k)) in done + {rid} && TierVal(geo, route, t, k) == Some(o))
    {
      TimesAppend(vs, RegionVisits(t[rid], 0), k, o);
      RegionOnce(geo, route, t, rid, k, o);
    }
  }

  /** A region visits exactly the live keys at home in it. */
  lemma RegionOnce(geo: Geo, route: Word -> Word, t: Tier, rid: nat, k: Word, o: Word)
    requires TierInv(geo, t) && Homed(geo, route, t) && rid < REGIONS && RegionInv(geo, t[rid])
    ensures Times(RegionVisits(t[rid], 0), k, o)
         == Once(RegionIdOf(route(k)) == rid && TierVal(geo, route, t, k) == Some(o))
  {
    hide Times, RegionVisits;
    var h := BucketIdOf(geo, route(k));
    forall g: nat | g < geo.main && !At(geo, route, k, rid, g) ensures Ent(t[rid], g, k) == None {
      assert !Stored(geo, t, rid, g, k);
    }
    RegionTimes(t[rid], 0, h, k, o);
  }

  // ---------------------------------------------------------------- the scan loops

  lemma Assoc<T>(a: seq<T>, b: seq<T>, c: seq<T>)
    ensures a + b + c == a + (b + c)
  {
  }

  method ScanSlots(bk: Bucket, vs: seq<Visit>) returns (vs': seq<Visit>)
    requires BucketShape(bk)
    ensures vs' == vs + BucketVisits(bk, 0)
  {
    hide BucketVisits;
    vs' := vs;
    var i := 0;
    while i < SLOTS
      invariant i <= SLOTS && vs + BucketVisits(bk, 0) == vs' + BucketVisits(bk, i)
    {
      SlotUnfold(bk, i);
      Assoc(vs', SlotVisit(bk, i), BucketVisits(bk, i + 1));
      if i in bk.occ && bk.entries[i].off != TOMBSTONE {
        vs' := vs' + [(bk.entries[i].key, bk.entries[i].off)];
      } else {
        assert vs' + [] == vs';
      }
      i := i + 1;
    }
    SlotUnfold(bk, SLOTS);
  }

  method ScanChain(r: Region, head: nat, vs: seq<Visit>) returns (vs': seq<Visit>)
    requires Shape(r) && head < r.main
    ensures vs' == vs + ChainVisits(r, head)
  {
    hide BucketVisits;
    vs' := vs;
    var cur := head;
    while true
      invariant cur < |r.buckets| && vs + ChainVisits(r, head) == vs' + ChainVisits(r, cur)
      decreases |r.buckets| - cur
    {
      ghost var before := vs';
      vs' := ScanSlots(r.buckets[cur], vs');
      var next := r.buckets[cur].next;
      if next == 0 {
        assert ChainVisits(r, cur) == BucketVisits(r.buckets[cur], 0);
        break;
      }
      Assoc(before, BucketVisits(r.buckets[cur], 0), ChainVisits(r, r.main + next));
      cur := r.main + next;
    }
  }

  method ScanRegion(r: Region, vs: seq<Visit>) returns (vs': seq<Visit>)
    requires Shape(r)
    ensures vs' == vs + RegionVisits(r, 0)
  {
    hide ChainVisits;
    vs' := vs;
    var b := 0;
    while b < r.main
      invariant b <= r.main && vs + RegionVisits(r, 0) == vs' + RegionVisits(r, b)
    {
      Assoc(vs', ChainVisits(r, b), RegionVisits(r, b + 1));
      vs' := ScanChain(r, b, vs');
      b := b + 1;
    }
  }

  /** The thread that scans region `x` when `n` threads stride over the regions. */
  function ThreadOf(x: nat, n: nat): (t: nat)
    requires n > 0
    ensures t < n && t <= x
    decreases x
  {
    if x < n then x else ThreadOf(x - n, n)
  }

  lemma {:induction false} StrideGap(r: nat, x: nat, n: nat)
    requires n > 0 && r < x < r + n
    ensures ThreadOf(x, n) != ThreadOf(r, n)
    decreases r
  {
    if r >= n {
      StrideGap(r - n, x - n, n);
    }
  }

  /** Regions scanned when threads before `t` are done and thread `t` has reached region `r`. */
  ghost predicate Covered(x: nat, t: nat, r: nat, n: nat)
    requires n > 0
  {
    ThreadOf(x, n) < t || (ThreadOf(x, n) == t && x < r)
  }

  lemma CoveredNext(t: nat, r: nat, n: nat)
    requires n > 0 && ThreadOf(r, n) == t
    ensures ThreadOf(r + n, n) == t
    ensures forall x: nat :: Covered(x, t, r + n, n) <==> Covered(x, t, r, n) || x == r
  {
    forall x: nat ensures Covered(x, t, r + n, n) <==> Covered(x, t, r, n) || x == r {
      if r < x < r + n {
        StrideGap(r, x, n);
      }
    }
  }

  /** One thread of `parallel_load`: regions `t`, `t + n`, `t + 2n`, and so on. */
  method ScanThread(geo: Geo, ghost route: Word -> Word, t: Tier, n: nat, me: nat, vs: seq<Visit>, ghost done: set<nat>)
    returns (vs': seq<Visit>, ghost done': set<nat>)
    requires TierInv(geo, t) && Homed(geo, route, t) && me < n && Exactly(geo, route, t, vs, done)
    requires forall x: nat :: x in done <==> x < REGIONS && ThreadOf(x, n) < me
    ensures Exactly(geo, route, t, vs', done')
    ensures forall x: nat :: x in done' <==> x < REGIONS && ThreadOf(x, n) < me + 1
  {
    hide Exactly, RegionVisits, Homed, Unique, Injective, Fresh;
    vs', done' := vs, done;
    var r := me;
    while r < REGIONS
      invariant ThreadOf(r, n) == me && Exactly(geo, route, t, vs', done')
      invariant forall x: nat :: x in done' <==> x < REGIONS && Covered(x, me, r, n)
    {
      assert RegionInv(geo, t[r]);
      ExactlyAdd(geo, route, t, vs', done', r);
      vs' := ScanRegion(t[r], vs');
      CoveredNext(me, r, n);
      done' := done' + {r};
      r := r + n;
    }
  }

  /** `parallel_load`, the threads' visits in thread order: on a quiescent table every live key is
      visited exactly once with its current offset and nothing else is visited, for every thread count. */
  method ParallelLoad(geo: Geo, ghost route: Word -> Word, t: Tier, threads: nat) returns (vs: seq<Visit>)
    requires TierInv(geo, t) && Homed(geo, route, t)
    ensures forall k: Word, o: Word :: Times(vs, k, o) == if TierVal(geo, route, t, k) == Some(o) then 1 else 0
  {
    var n := if threads == 0 then 1 else if threads > REGIONS then REGIONS else threads;
    vs := [];
    ghost var done: set<nat> := {};
    var me := 0;
    while me < n
      invariant me <= n && Exactly(geo, route, t, vs, done)
      invariant forall x: nat :: x in done <==> x < REGIONS && ThreadOf(x, n) < me
    {
      vs, done := ScanThread(geo, route, t, n, me, vs, done);
      me := me + 1;
    }
  }
}
