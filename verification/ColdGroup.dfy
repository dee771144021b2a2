/** `apply_bucket_group`: a run of pairs for one chain, written with the occupancy bits of all new
    slots held back until the end, against the same pairs written one `upsert` at a time. */
module ColdGroup {
  import opened Options
  import opened ColdRegion
  import opened ColdSteps
  import opened ColdUpsert

  datatype Pair = Pair(key: Word, off: Word)

  /** A bucket touched by the group and the occupancy bits still to be flipped in it. */
  datatype Dirty = Dirty(b: nat, bits: set<nat>)

  /** `batch_claimed_bits`. */
  function Claimed(d: seq<Dirty>, b: nat): (bits: set<nat>)
  {
    if d == [] then {} else if d[0].b == b then d[0].bits else Claimed(d[1..], b)
  }

  /** `find_or_create_dirty`, then OR-ing in `bits`. */
  function Mark(d: seq<Dirty>, b: nat, bits: set<nat>): (d': seq<Dirty>)
    ensures |d'| >= |d|
  {
    if d == [] then [Dirty(b, bits)]
    else if d[0].b == b then [Dirty(b, d[0].bits + bits)] + d[1..]
    else [d[0]] + Mark(d[1..], b, bits)
  }

  ghost predicate Distinct(d: seq<Dirty>) {
    forall i, j :: 0 <= i < j < |d| ==> d[i].b != d[j].b
  }

  lemma {:induction false} MarkClaimed(d: seq<Dirty>, b: nat, bits: set<nat>, c: nat)
    ensures Claimed(Mark(d, b, bits), c) == if c == b then Claimed(d, b) + bits else Claimed(d, c)
  {
    if d != [] && d[0].b != b {
      MarkClaimed(d[1..], b, bits, c);
      assert Mark(d, b, bits)[1..] == Mark(d[1..], b, bits);
    } else if d != [] {
      assert Mark(d, b, bits)[1..] == d[1..];
    }
  }

  lemma {:induction false} MarkDistinct(d: seq<Dirty>, b: nat, bits: set<nat>)
    requires Distinct(d)
    ensures Distinct(Mark(d, b, bits))
    ensures forall x :: x in Mark(d, b, bits) ==> x.b == b || exists y :: y in d && y.b == x.b
  {
    if d != [] && d[0].b != b {
      MarkDistinct(d[1..], b, bits);
      var m := Mark(d[1..], b, bits);
      forall x | x in m ensures x.b != d[0].b {
        if x.b != b {
          var y :| y in d[1..] && y.b == x.b;
        }
      }
    }
  }

  lemma {:induction false} ClaimedAbsent(d: seq<Dirty>, b: nat)
    requires forall x :: x in d ==> x.b != b
    ensures Claimed(d, b) == {}
  {
    if d != [] {
      ClaimedAbsent(d[1..], b);
    }
  }

  /** Memory as it will look once the held-back bits are flipped. */
  ghost function Overlay(r: Region, d: seq<Dirty>): (v: Region)
    ensures v.main == r.main && v.over == r.over && v.alloc == r.alloc && v.count == r.count
    ensures |v.buckets| == |r.buckets|
    ensures forall b :: 0 <= b < |r.buckets| ==>
              v.buckets[b] == r.buckets[b].(occ := r.buckets[b].occ + Claimed(d, b))
  {
    r.(buckets := seq(|r.buckets|, b requires 0 <= b < |r.buckets| =>
                        r.buckets[b].(occ := r.buckets[b].occ + Claimed(d, b))))
  }

  /** The stores of phase 1 for one pair; the occupancy bit of a new slot is not among them. */
  function EntryStores(r: Region, p: Plan, k: Word, o: Word): (ss: seq<Store>)
    requires p.Extend? ==> p.t < |r.buckets|
  {
    match p
    case Update(l) => [SetOff(l.b, l.i, o)]
    case Insert(l) => [SetKey(l.b, l.i, k), SetOff(l.b, l.i, o), AddCount]
    case Extend(n, t) =>
      [SetAlloc(n), SetKey(r.main + n, 0, k), SetOff(r.main + n, 0, o), SetHdr(t, r.buckets[t].occ, n), AddCount]
    case Full => [SetAlloc(r.alloc + 1), SetAlloc(r.alloc)]
  }

  function EntryDirty(r: Region, d: seq<Dirty>, p: Plan): (d': seq<Dirty>)
  {
    match p
    case Update(l) => Mark(d, l.b, {})
    case Insert(l) => Mark(d, l.b, {l.i})
    case Extend(n, t) => Mark(Mark(d, r.main + n, {0}), t, {})
    case Full => d
  }

  /** Phase 2: flip the held-back bits, bucket by bucket, in the order the buckets were first touched. */
  function FlipStores(d: seq<Dirty>): (ss: seq<Store>)
  {
    if d == [] then [] else (if d[0].bits == {} then [] else [OrOcc(d[0].b, d[0].bits)]) + FlipStores(d[1..])
  }

  /** Dirty buckets lie on the chain, and each held-back bit covers a slot that is still unpublished
      and holds a pair of the group. */
  ghost predicate Staged(r: Region, d: seq<Dirty>, h: nat, w: set<(Word, Word)>)
    requires Shape(r) && h < r.main
  {
    && Distinct(d)
    && (forall x :: x in d ==> Reach(r, h, x.b) && x.b < |r.buckets|)
    && (forall b, i :: 0 <= b < |r.buckets| && i in Claimed(d, b) ==> StagedSlot(r, b, i, w))
  }

  ghost predicate StagedSlot(r: Region, b: nat, i: nat, w: set<(Word, Word)>)
    requires Shape(r) && b < |r.buckets|
  {
    i < SLOTS && i !in r.buckets[b].occ && (r.buckets[b].entries[i].key, r.buckets[b].entries[i].off) in w
  }

  ghost predicate GroupMem(r: Region, d: seq<Dirty>, h: nat, w: set<(Word, Word)>) {
    Inv(r) && h < r.main && Staged(r, d, h, w)
  }

  ghost predicate GroupState(r: Region, d: seq<Dirty>, h: nat, w: set<(Word, Word)>) {
    GroupMem(r, d, h, w) && Inv(Overlay(r, d))
  }

  /** Two regions are equal when their buckets are, header field by header field. */
  lemma OverlayIs(r: Region, d: seq<Dirty>, v: Region)
    requires r.main == v.main && r.over == v.over && r.alloc == v.alloc && r.count == v.count
    requires |r.buckets| == |v.buckets|
    requires forall b :: 0 <= b < |r.buckets| ==> r.buckets[b].entries == v.buckets[b].entries
    requires forall b :: 0 <= b < |r.buckets| ==> r.buckets[b].next == v.buckets[b].next
    requires forall b :: 0 <= b < |r.buckets| ==> r.buckets[b].occ + Claimed(d, b) == v.buckets[b].occ
    ensures Overlay(r, d) == v
  {
    assert Overlay(r, d).buckets == v.buckets;
  }

  /** Replacing one bucket of memory and re-marking it replaces one bucket of the overlay. */
  lemma OverlayPoke(r: Region, d: seq<Dirty>, d': seq<Dirty>, b: nat, x: Bucket, y: Bucket)
    requires b < |r.buckets|
    requires forall c: nat :: c != b ==> Claimed(d', c) == Claimed(d, c)
    requires y == x.(occ := x.occ + Claimed(d', b))
    ensures Overlay(r.(buckets := r.buckets[b := x]), d') == Overlay(r, d).(buckets := Overlay(r, d).buckets[b := y])
  {
    assert Overlay(r.(buckets := r.buckets[b := x]), d').buckets == Overlay(r, d).buckets[b := y];
  }

  lemma MarkOthers(d: seq<Dirty>, b: nat, bits: set<nat>)
    ensures Claimed(Mark(d, b, bits), b) == Claimed(d, b) + bits
    ensures forall c: nat :: c != b ==> Claimed(Mark(d, b, bits), c) == Claimed(d, c)
  {
    forall c: nat ensures Claimed(Mark(d, b, bits), c) == if c == b then Claimed(d, b) + bits else Claimed(d, c) {
      MarkClaimed(d, b, bits, c);
    }
  }

  // ---------------------------------------------------------------- phase 2

  lemma {:induction false} FlipCorrect(r: Region, d: seq<Dirty>, h: nat, w: set<(Word, Word)>)
    requires GroupState(r, d, h, w)
    ensures Along(r, FlipStores(d), h, w)
    ensures Run(r, FlipStores(d)) == Overlay(r, d)
    decreases |d|
  {
    if d == [] {
      OverlayIs(r, d, r);
    } else if d[0].bits == {} {
      FlipSkip(r, d, h, w);
      FlipCorrect(r, d[1..], h, w);
      assert FlipStores(d) == FlipStores(d[1..]);
    } else {
      var s := OrOcc(d[0].b, d[0].bits);
      FlipOne(r, d, h, w);
      FlipCorrect(Apply(r, s), d[1..], h, w);
      AlongOne(r, s, h, w);
      AlongThen(r, [s], FlipStores(d[1..]), h, w);
    }
  }

  lemma ClaimedTail(d: seq<Dirty>, b: nat)
    requires d != [] && Distinct(d)
    ensures Claimed(d[1..], b) == if b == d[0].b then {} else Claimed(d, b)
  {
    if b == d[0].b {
      ClaimedAbsent(d[1..], b);
    }
  }

  lemma FlipSkip(r: Region, d: seq<Dirty>, h: nat, w: set<(Word, Word)>)
    requires GroupState(r, d, h, w) && d != [] && d[0].bits == {}
    ensures Overlay(r, d[1..]) == Overlay(r, d) && GroupState(r, d[1..], h, w)
  {
    forall b: nat ensures Claimed(d[1..], b) == Claimed(d, b) {
      ClaimedTail(d, b);
    }
    assert Overlay(r, d[1..]).buckets == Overlay(r, d).buckets;
  }

  lemma FlipOne(r: Region, d: seq<Dirty>, h: nat, w: set<(Word, Word)>)
    requires GroupState(r, d, h, w) && d != []
    ensures var r1 := Apply(r, OrOcc(d[0].b, d[0].bits));
            Evolves(r, r1, h, w) && Overlay(r1, d[1..]) == Overlay(r, d) && GroupState(r1, d[1..], h, w)
  {
    var b, bits := d[0].b, d[0].bits;
    var r1 := Apply(r, OrOcc(b, bits));
    var v := Overlay(r, d);
    assert d[0] in d;
    FreeAllocated(r, h, b);
    assert Claimed(d, b) == bits;
    assert forall i :: i in bits ==> StagedSlot(r, b, i, w);
    StorePublish(r, v, b, bits, h, w);
    forall c: nat ensures Claimed(d[1..], c) == if c == b then {} else Claimed(d, c) {
      ClaimedTail(d, c);
    }
    forall c | 0 <= c < |r.buckets|
      ensures r1.buckets[c].occ + Claimed(d[1..], c) == r.buckets[c].occ + Claimed(d, c)
    {
    }
    OverlayIs(r1, d[1..], v);
    FlipStaged(r, d, h, w, r1);
  }

  lemma FlipStaged(r: Region, d: seq<Dirty>, h: nat, w: set<(Word, Word)>, r1: Region)
    requires Inv(r) && h < r.main && Staged(r, d, h, w) && d != [] && d[0].b < |r.buckets|
    requires r1 == Apply(r, OrOcc(d[0].b, d[0].bits)) && Inv(r1)
    ensures Staged(r1, d[1..], h, w)
  {
    forall x | x in d[1..] ensures Reach(r1, h, x.b) {
      assert x in d;
      ReachSame(r, r1, h, x.b);
    }
    forall b, i | 0 <= b < |r1.buckets| && i in Claimed(d[1..], b) ensures StagedSlot(r1, b, i, w) {
      ClaimedTail(d, b);
      assert StagedSlot(r, b, i, w);
    }
  }

  // ---------------------------------------------------------------- phase 1, one pair

  lemma RunOne(r: Region, s: Store)
    ensures Run(r, [s]) == Apply(r, s)
  {
    assert [s][1..] == [];
  }

  lemma ApplyCount(r: Region)
    ensures Apply(r, AddCount) == r.(count := r.count + 1)
  {
  }

  lemma RunThree(r: Region, s1: Store, s2: Store, s3: Store)
    ensures Run(r, [s1, s2, s3]) == Apply(Apply(Apply(r, s1), s2), s3)
  {
    assert [s1, s2, s3][1..] == [s2, s3] && [s2, s3][1..] == [s3];
    RunOne(Apply(Apply(r, s1), s2), s3);
  }

  lemma RunFour(r: Region, s1: Store, s2: Store, s3: Store, s4: Store)
    ensures Run(r, [s1, s2, s3, s4]) == Apply(Apply(Apply(Apply(r, s1), s2), s3), s4)
  {
    assert [s1, s2, s3, s4][1..] == [s2, s3, s4];
    RunThree(Apply(r, s1), s2, s3, s4);
  }

  lemma RunFive(r: Region, s1: Store, s2: Store, s3: Store, s4: Store, s5: Store)
    ensures Run(r, [s1, s2, s3, s4, s5]) == Apply(Apply(Apply(Apply(Apply(r, s1), s2), s3), s4), s5)
  {
    assert [s1, s2, s3, s4, s5][1..] == [s2, s3, s4, s5];
    RunFour(Apply(r, s1), s2, s3, s4, s5);
  }

  lemma RunSix(r: Region, s1: Store, s2: Store, s3: Store, s4: Store, s5: Store, s6: Store)
    ensures Run(r, [s1, s2, s3, s4, s5, s6]) == Apply(Apply(Apply(Apply(Apply(Apply(r, s1), s2), s3), s4), s5), s6)
  {
    assert [s1, s2, s3, s4, s5, s6][1..] == [s2, s3, s4, s5, s6];
    RunFive(Apply(r, s1), s2, s3, s4, s5, s6);
  }

  function FilledBucket(bk: Bucket, i: nat, k: Word, o: Word): (bk': Bucket)
    requires i < |bk.entries|
  {
    bk.(entries := bk.entries[i := Entry(k, o)])
  }

  /** Memory after phase 1 of one inserted pair. */
  lemma RunInsert(r: Region, l: Loc, k: Word, o: Word)
    requires l.b < |r.buckets| && l.i < |r.buckets[l.b].entries|
    ensures Run(r, EntryStores(r, Insert(l), k, o)) == Filled(r, l.b, l.i, k, o).(count := r.count + 1)
  {
    RunThree(r, SetKey(l.b, l.i, k), SetOff(l.b, l.i, o), AddCount);
    FillTwice(r, l.b, l.i, k, o);
    ApplyCount(Filled(r, l.b, l.i, k, o));
  }

  lemma ApplyOcc(r: Region, b: nat, x: Bucket, bits: set<nat>)
    requires b < |r.buckets|
    ensures Apply(r.(buckets := r.buckets[b := x]), OrOcc(b, bits))
         == r.(buckets := r.buckets[b := x.(occ := x.occ + bits)])
  {
    assert r.buckets[b := x][b := x.(occ := x.occ + bits)] == r.buckets[b := x.(occ := x.occ + bits)];
  }

  /** The same pair through `upsert` additionally publishes the slot. */
  lemma RunInsertUpsert(r: Region, l: Loc, k: Word, o: Word, y: Bucket)
    requires l.b < |r.buckets| && l.i < |r.buckets[l.b].entries|
    requires y == FilledBucket(r.buckets[l.b], l.i, k, o).(occ := r.buckets[l.b].occ + {l.i})
    ensures Run(r, PlanStores(r, Insert(l), k, o)) == r.(buckets := r.buckets[l.b := y], count := r.count + 1)
  {
    var f := Filled(r, l.b, l.i, k, o);
    RunFour(r, SetKey(l.b, l.i, k), SetOff(l.b, l.i, o), OrOcc(l.b, {l.i}), AddCount);
    FillTwice(r, l.b, l.i, k, o);
    ApplyOcc(r, l.b, FilledBucket(r.buckets[l.b], l.i, k, o), {l.i});
    ApplyCount(Apply(f, OrOcc(l.b, {l.i})));
  }

  ghost predicate ExtendArgs(r: Region, n: nat, t: nat) {
    && n == r.alloc + 1 <= r.over && |r.buckets| == r.main + r.over + 1
    && t < r.main + n && r.buckets[r.main + n] == EmptyBucket()
  }

  ghost function Linked(r: Region, t: nat, n: nat, nb: Bucket): (r': Region)
    requires t < |r.buckets| && r.main + n < |r.buckets|
  {
    r.(alloc := n, count := r.count + 1,
       buckets := r.buckets[r.main + n := nb][t := r.buckets[t].(next := n)])
  }

  lemma RunExtend(r: Region, n: nat, t: nat, k: Word, o: Word)
    requires ExtendArgs(r, n, t)
    ensures Run(r, EntryStores(r, Extend(n, t), k, o))
         == Linked(r, t, n, Bucket({}, 0, EmptyBucket().entries[0 := Entry(k, o)]))
  {
    var x := r.main + n;
    RunFive(r, SetAlloc(n), SetKey(x, 0, k), SetOff(x, 0, o), SetHdr(t, r.buckets[t].occ, n), AddCount);
    FillTwice(r.(alloc := n), x, 0, k, o);
  }

  lemma RunExtendUpsert(r: Region, n: nat, t: nat, k: Word, o: Word)
    requires ExtendArgs(r, n, t)
    ensures Run(r, PlanStores(r, Extend(n, t), k, o))
         == Linked(r, t, n, Bucket({0}, 0, EmptyBucket().entries[0 := Entry(k, o)]))
  {
    var x := r.main + n;
    RunSix(r, SetAlloc(n), SetKey(x, 0, k), SetOff(x, 0, o), SetHdr(x, {0}, 0), SetHdr(t, r.buckets[t].occ, n), AddCount);
    FillTwice(r.(alloc := n), x, 0, k, o);
    var f := Filled(r.(alloc := n), x, 0, k, o);
    assert Apply(f, SetHdr(x, {0}, 0)).buckets == r.buckets[x := Bucket({0}, 0, EmptyBucket().entries[0 := Entry(k, o)])];
  }

  lemma OverlayUpdate(r: Region, d: seq<Dirty>, l: Loc, k: Word, o: Word)
    requires l.b < |r.buckets| && l.i < |r.buckets[l.b].entries|
    ensures Overlay(Run(r, EntryStores(r, Update(l), k, o)), EntryDirty(r, d, Update(l)))
         == Run(Overlay(r, d), PlanStores(Overlay(r, d), Update(l), k, o))
  {
    var v, s := Overlay(r, d), SetOff(l.b, l.i, o);
    RunOne(r, s);
    RunOne(v, s);
    MarkOthers(d, l.b, {});
    hide Run, Mark, Claimed;
    var x, y := Apply(r, s).buckets[l.b], Apply(v, s).buckets[l.b];
    OverlayPoke(r, d, Mark(d, l.b, {}), l.b, x, y);
  }

  lemma OverlayInsert(r: Region, d: seq<Dirty>, l: Loc, k: Word, o: Word)
    requires l.b < |r.buckets| && l.i < |r.buckets[l.b].entries|
    ensures Overlay(Run(r, EntryStores(r, Insert(l), k, o)), EntryDirty(r, d, Insert(l)))
         == Run(Overlay(r, d), PlanStores(Overlay(r, d), Insert(l), k, o))
  {
    var v := Overlay(r, d);
    var x := FilledBucket(r.buckets[l.b], l.i, k, o);
    var y := FilledBucket(v.buckets[l.b], l.i, k, o).(occ := v.buckets[l.b].occ + {l.i});
    RunInsert(r, l, k, o);
    RunInsertUpsert(v, l, k, o, y);
    MarkOthers(d, l.b, {l.i});
    InsertedBucket(r, d, l, k, o, x, y);
    OverlayPoke(r, d, Mark(d, l.b, {l.i}), l.b, x, y);
    OverlayCount(Filled(r, l.b, l.i, k, o), Mark(d, l.b, {l.i}), r.count + 1);
  }

  lemma InsertedBucket(r: Region, d: seq<Dirty>, l: Loc, k: Word, o: Word, x: Bucket, y: Bucket)
    requires l.b < |r.buckets| && l.i < |r.buckets[l.b].entries|
    requires x == FilledBucket(r.buckets[l.b], l.i, k, o)
    requires y == FilledBucket(Overlay(r, d).buckets[l.b], l.i, k, o).(occ := Overlay(r, d).buckets[l.b].occ + {l.i})
    ensures y == x.(occ := x.occ + Claimed(Mark(d, l.b, {l.i}), l.b))
    ensures Filled(r, l.b, l.i, k, o) == r.(buckets := r.buckets[l.b := x])
  {
    MarkOthers(d, l.b, {l.i});
    assert y.occ == x.occ + Claimed(Mark(d, l.b, {l.i}), l.b);
  }

  lemma OverlayCount(r: Region, d: seq<Dirty>, n: nat)
    ensures Overlay(r.(count := n), d) == Overlay(r, d).(count := n)
  {
  }

  /** An untouched overflow bucket of the overlay is untouched in memory, with no bit held back. */
  lemma FreshBelow(r: Region, d: seq<Dirty>, x: nat)
    requires x < |r.buckets| && Overlay(r, d).buckets[x] == EmptyBucket()
    ensures r.buckets[x] == EmptyBucket() && Claimed(d, x) == {}
  {
    assert r.buckets[x].occ + Claimed(d, x) == {};
    assert r.buckets[x].occ <= r.buckets[x].occ + Claimed(d, x);
    assert Claimed(d, x) <= r.buckets[x].occ + Claimed(d, x);
  }

  lemma OverlayExtend(r: Region, d: seq<Dirty>, n: nat, t: nat, k: Word, o: Word)
    requires ExtendArgs(Overlay(r, d), n, t)
    ensures ExtendArgs(r, n, t)
    ensures Overlay(Run(r, EntryStores(r, Extend(n, t), k, o)), EntryDirty(r, d, Extend(n, t)))
         == Run(Overlay(r, d), PlanStores(Overlay(r, d), Extend(n, t), k, o))
  {
    var v, x := Overlay(r, d), r.main + n;
    FreshBelow(r, d, x);
    RunExtend(r, n, t, k, o);
    RunExtendUpsert(v, n, t, k, o);
    var es := EmptyBucket().entries[0 := Entry(k, o)];
    var r', v' := Linked(r, t, n, Bucket({}, 0, es)), Linked(v, t, n, Bucket({0}, 0, es));
    var d1 := Mark(d, x, {0});
    forall b | 0 <= b < |r.buckets| ensures r'.buckets[b].occ + Claimed(Mark(d1, t, {}), b) == v'.buckets[b].occ {
      MarkClaimed(d1, t, {}, b);
      MarkClaimed(d, x, {0}, b);
    }
    OverlayIs(r', Mark(d1, t, {}), v');
  }

  lemma OverlayFull(r: Region, d: seq<Dirty>, k: Word, o: Word)
    ensures Run(r, EntryStores(r, Full, k, o)) == r
    ensures Run(Overlay(r, d), PlanStores(Overlay(r, d), Full, k, o)) == Overlay(r, d)
  {
    var v := Overlay(r, d);
    assert [SetAlloc(r.alloc + 1), SetAlloc(r.alloc)][1..] == [SetAlloc(r.alloc)];
    RunOne(r.(alloc := r.alloc + 1), SetAlloc(r.alloc));
    RunOne(v.(alloc := r.alloc + 1), SetAlloc(r.alloc));
  }

  /** The slots and buckets a plan names exist. */
  ghost predicate InBounds(v: Region, h: nat, k: Word, p: Plan)
    requires Shape(v) && h < v.main
  {
    match p
    case Update(l) => Pub(v, h, l.b, l.i, k) && l.b < |v.buckets| && l.i < SLOTS
    case Insert(l) => Reach(v, h, l.b) && l.b < |v.buckets| && l.i < SLOTS && l.i !in v.buckets[l.b].occ
    case Extend(n, t) => ExtendArgs(v, n, t) && t == Tail(v, h)
    case Full => true
  }

  lemma PlanBounds(v: Region, h: nat, k: Word, p: Plan)
    requires Inv(v) && h < v.main && p == PlanOf(v, h, k)
    ensures InBounds(v, h, k, p)
  {
    PlanFits(v, h, k);
    if p.Extend? {
      FreeAllocated(v, h, p.t);
    }
  }

  /** One pair of the group does to the overlay exactly what `upsert` would do to it. */
  lemma EntryRefines(r: Region, d: seq<Dirty>, h: nat, k: Word, o: Word)
    requires h < r.main && Inv(Overlay(r, d))
    ensures var p := PlanOf(Overlay(r, d), h, k);
            Overlay(Run(r, EntryStores(r, p, k, o)), EntryDirty(r, d, p)) == Upsert(Overlay(r, d), h, k, o)
  {
    var p := PlanOf(Overlay(r, d), h, k);
    PlanBounds(Overlay(r, d), h, k, p);
    match p
    case Update(l) => OverlayUpdate(r, d, l, k, o);
    case Insert(l) => OverlayInsert(r, d, l, k, o);
    case Extend(n, t) => OverlayExtend(r, d, n, t, k, o);
    case Full => OverlayFull(r, d, k, o);
  }

  // ---------------------------------------------------------------- phase 1, store by store

  lemma GroupCovers(r: Region, d: seq<Dirty>, h: nat, w: set<(Word, Word)>)
    requires GroupState(r, d, h, w)
    ensures Covers(r, Overlay(r, d))
    ensures forall g: nat, b: nat, i: nat, k: Word :: g < r.main && Pub(r, g, b, i, k) ==> Pub(Overlay(r, d), g, b, i, k)
    ensures forall b: nat :: Reach(Overlay(r, d), h, b) ==> Reach(r, h, b)
  {
    var v := Overlay(r, d);
    CoveredInv(r, v);
    forall b: nat | Reach(v, h, b) ensures Reach(r, h, b) {
      ReachSame(r, v, h, b);
    }
  }

  lemma UpdateStaged(r: Region, d: seq<Dirty>, h: nat, l: Loc, k: Word, o: Word, w: set<(Word, Word)>)
    requires GroupState(r, d, h, w) && Pub(Overlay(r, d), h, l.b, l.i, k) && (k, o) in w
    ensures Along(r, EntryStores(r, Update(l), k, o), h, w)
    ensures GroupMem(Run(r, EntryStores(r, Update(l), k, o)), EntryDirty(r, d, Update(l)), h, w)
  {
    var r' := Apply(r, SetOff(l.b, l.i, o));
    GroupCovers(r, d, h, w);
    FreeAllocated(r, h, l.b);
    if l.i in r.buckets[l.b].occ {
      StoreOffset(r, l.b, l.i, k, o, h, w);
    } else {
      StoreUnpublished(r, SetOff(l.b, l.i, o), h, w);
    }
    GrowsReach(r, r', h, l.b);
    StagedMark(r, d, h, l.b, {}, w, r');
    AlongOne(r, SetOff(l.b, l.i, o), h, w);
  }

  /** Marking a chain bucket keeps the dirty list in order. */
  lemma StagedMark(r: Region, d: seq<Dirty>, h: nat, b: nat, bits: set<nat>, w: set<(Word, Word)>, r': Region)
    requires Inv(r) && h < r.main && Staged(r, d, h, w) && Inv(r') && Grows(r, r')
    requires b < |r.buckets| && Reach(r', h, b)
    requires forall c, i :: 0 <= c < |r.buckets| && i in Claimed(d, c) && StagedSlot(r, c, i, w) ==> StagedSlot(r', c, i, w)
    requires forall i :: i in bits ==> StagedSlot(r', b, i, w)
    ensures Staged(r', Mark(d, b, bits), h, w)
  {
    MarkDistinct(d, b, bits);
    forall x | x in Mark(d, b, bits) ensures Reach(r', h, x.b) && x.b < |r'.buckets| {
      if x.b != b {
        var y :| y in d && y.b == x.b;
        GrowsReach(r, r', h, y.b);
      }
    }
    forall c, i | 0 <= c < |r'.buckets| && i in Claimed(Mark(d, b, bits), c) ensures StagedSlot(r', c, i, w) {
      MarkClaimed(d, b, bits, c);
    }
  }

  lemma InsertStaged(r: Region, d: seq<Dirty>, h: nat, l: Loc, k: Word, o: Word, w: set<(Word, Word)>)
    requires GroupState(r, d, h, w) && Reach(Overlay(r, d), h, l.b) && l.b < |r.buckets| && l.i < SLOTS
    requires l.i !in Overlay(r, d).buckets[l.b].occ && (k, o) in w
    ensures Along(r, EntryStores(r, Insert(l), k, o), h, w)
    ensures GroupMem(Run(r, EntryStores(r, Insert(l), k, o)), EntryDirty(r, d, Insert(l)), h, w)
  {
    GroupCovers(r, d, h, w);
    InsertHidden(r, h, l, k, o, w);
    RunInsert(r, l, k, o);
    AlongWhole(r, EntryStores(r, Insert(l), k, o), h, w);
    FilledStaged(r, d, h, l, k, o, w, Run(r, EntryStores(r, Insert(l), k, o)));
  }

  lemma InsertHidden(r: Region, h: nat, l: Loc, k: Word, o: Word, w: set<(Word, Word)>)
    requires Inv(r) && h < r.main && Reach(r, h, l.b) && l.b < |r.buckets| && l.i < SLOTS
    requires l.i !in r.buckets[l.b].occ
    ensures Along(r, EntryStores(r, Insert(l), k, o), h, w)
  {
    FreeAllocated(r, h, l.b);
    var s1 := [SetKey(l.b, l.i, k), SetOff(l.b, l.i, o)];
    FillSlot(r, l.b, l.i, k, o, h);
    AlongHidden(r, s1, h, k, w);
    var f := Filled(r, l.b, l.i, k, o);
    StoreCount(f, h, w);
    AlongOne(f, AddCount, h, w);
    AlongThen(r, s1, [AddCount], h, w);
    assert EntryStores(r, Insert(l), k, o) == s1 + [AddCount];
  }

  lemma FilledStaged(r: Region, d: seq<Dirty>, h: nat, l: Loc, k: Word, o: Word, w: set<(Word, Word)>, r': Region)
    requires GroupState(r, d, h, w) && Reach(r, h, l.b) && l.b < |r.buckets| && l.i < SLOTS
    requires l.i !in Overlay(r, d).buckets[l.b].occ && (k, o) in w
    requires Inv(r') && r' == Filled(r, l.b, l.i, k, o).(count := r.count + 1)
    ensures Staged(r', Mark(d, l.b, {l.i}), h, w)
  {
    ReachSame(r, r', h, l.b);
    assert StagedSlot(r', l.b, l.i, w);
    StagedMark(r, d, h, l.b, {l.i}, w, r');
  }

  /** A key absent from the overlay is absent from memory. */
  lemma AbsentBelow(r: Region, d: seq<Dirty>, h: nat, k: Word, w: set<(Word, Word)>)
    requires GroupState(r, d, h, w) && Ent(Overlay(r, d), h, k) == None
    ensures Ent(r, h, k) == None
  {
    GroupCovers(r, d, h, w);
    match Find(r, h, k) {
      case None =>
      case Some(l) => FindComplete(Overlay(r, d), h, l.b, l.i, k);
    }
  }

  /** Linking an overflow bucket whose only pair is still unpublished shows nothing new. */
  lemma LinkHidden(r: Region, h: nat, n: nat, t: nat, k: Word, o: Word, w: set<(Word, Word)>, f: Region)
    requires Inv(r) && h < r.main && ExtendArgs(r, n, t) && t == Tail(r, h) && (k, o) in w
    requires f == Filled(r.(alloc := n), r.main + n, 0, k, o) && Inv(f) && Ent(f, h, k) == None
    ensures Along(f, [SetHdr(t, r.buckets[t].occ, n), AddCount], h, w)
  {
    TailSame(r, f, h);
    assert Unlinked(f, n);
    StoreLink(f, t, n, k, o, h, w);
    LinkThenCount(f, SetHdr(t, r.buckets[t].occ, n), h, w);
  }

  lemma ExtendHidden(r: Region, h: nat, n: nat, t: nat, k: Word, o: Word, w: set<(Word, Word)>)
    requires Inv(r) && h < r.main && ExtendArgs(r, n, t) && t == Tail(r, h) && (k, o) in w && Ent(r, h, k) == None
    ensures Along(r, EntryStores(r, Extend(n, t), k, o), h, w)
  {
    var s1, s2 := PhaseSplit(r, n, t, k, o);
    ClaimHidden(r, h, n, k, o, w, s1);
    LinkHidden(r, h, n, t, k, o, w, Run(r, s1));
    AlongThen(r, s1, s2, h, w);
  }

  lemma PhaseSplit(r: Region, n: nat, t: nat, k: Word, o: Word) returns (s1: seq<Store>, s2: seq<Store>)
    requires t < |r.buckets|
    ensures s1 == [SetAlloc(n), SetKey(r.main + n, 0, k), SetOff(r.main + n, 0, o)]
    ensures s2 == [SetHdr(t, r.buckets[t].occ, n), AddCount]
    ensures EntryStores(r, Extend(n, t), k, o) == s1 + s2
  {
    s1 := [SetAlloc(n), SetKey(r.main + n, 0, k), SetOff(r.main + n, 0, o)];
    s2 := [SetHdr(t, r.buckets[t].occ, n), AddCount];
  }

  lemma ClaimHidden(r: Region, h: nat, n: nat, k: Word, o: Word, w: set<(Word, Word)>, s1: seq<Store>)
    requires Inv(r) && h < r.main && n == r.alloc + 1 <= r.over && Ent(r, h, k) == None
    requires s1 == [SetAlloc(n), SetKey(r.main + n, 0, k), SetOff(r.main + n, 0, o)]
    ensures Along(r, s1, h, w) && Run(r, s1) == Filled(r.(alloc := n), r.main + n, 0, k, o)
    ensures Inv(Run(r, s1)) && Run(r, s1).main == r.main && Ent(Run(r, s1), h, k) == None
  {
    ClaimList(r, h, n, k, o);
    AlongHidden(r, s1, h, k, w);
  }

  lemma LinkThenCount(f: Region, s: Store, h: nat, w: set<(Word, Word)>)
    requires Inv(f) && Evolves(f, Apply(f, s), h, w)
    ensures Along(f, [s, AddCount], h, w)
  {
    AlongOne(f, s, h, w);
    StoreCount(Apply(f, s), h, w);
    AlongOne(Apply(f, s), AddCount, h, w);
    AlongThen(f, [s], [AddCount], h, w);
    assert [s] + [AddCount] == [s, AddCount];
  }

  lemma ExtendStaged(r: Region, d: seq<Dirty>, h: nat, n: nat, t: nat, k: Word, o: Word, w: set<(Word, Word)>)
    requires GroupState(r, d, h, w) && ExtendArgs(Overlay(r, d), n, t) && t == Tail(Overlay(r, d), h)
    requires Ent(Overlay(r, d), h, k) == None && (k, o) in w
    ensures t < |r.buckets| && Along(r, EntryStores(r, Extend(n, t), k, o), h, w)
    ensures GroupMem(Run(r, EntryStores(r, Extend(n, t), k, o)), EntryDirty(r, d, Extend(n, t)), h, w)
  {
    var x := r.main + n;
    FreshBelow(r, d, x);
    AbsentBelow(r, d, h, k, w);
    TailSame(r, Overlay(r, d), h);
    ExtendHidden(r, h, n, t, k, o, w);
    RunExtend(r, n, t, k, o);
    AlongWhole(r, EntryStores(r, Extend(n, t), k, o), h, w);
    LinkedStaged(r, d, h, n, t, k, o, w, Run(r, EntryStores(r, Extend(n, t), k, o)));
  }

  lemma LinkedStaged(r: Region, d: seq<Dirty>, h: nat, n: nat, t: nat, k: Word, o: Word, w: set<(Word, Word)>, r': Region)
    requires GroupMem(r, d, h, w) && ExtendArgs(r, n, t) && t == Tail(r, h) && (k, o) in w
    requires r' == Linked(r, t, n, Bucket({}, 0, EmptyBucket().entries[0 := Entry(k, o)]))
    requires Inv(r') && Grows(r, r') && Claimed(d, r.main + n) == {}
    ensures Staged(r', EntryDirty(r, d, Extend(n, t)), h, w)
  {
    var x := r.main + n;
    GrowsReach(r, r', h, t);
    assert Reach(r', t, x) by { assert Reach(r', x, x); }
    ReachTrans(r', h, t, x);
    assert StagedSlot(r', x, 0, w);
    LinkedSlots(r, d, n, t, k, o, w, r');
    StagedMark(r, d, h, x, {0}, w, r');
    StagedMark(r', Mark(d, x, {0}), h, t, {}, w, r');
  }

  lemma LinkedSlots(r: Region, d: seq<Dirty>, n: nat, t: nat, k: Word, o: Word, w: set<(Word, Word)>, r': Region)
    requires Shape(r) && Shape(r') && ExtendArgs(r, n, t) && Claimed(d, r.main + n) == {}
    requires r' == Linked(r, t, n, Bucket({}, 0, EmptyBucket().entries[0 := Entry(k, o)]))
    ensures forall c, i :: 0 <= c < |r.buckets| && i in Claimed(d, c) && StagedSlot(r, c, i, w) ==> StagedSlot(r', c, i, w)
  {
  }

  /** Phase 1 of one pair: every store is harmless, and the group stays well-formed. */
  lemma EntryAlong(r: Region, d: seq<Dirty>, h: nat, k: Word, o: Word, w: set<(Word, Word)>, p: Plan)
    requires GroupState(r, d, h, w) && (k, o) in w && p == PlanOf(Overlay(r, d), h, k)
    ensures p.Extend? ==> p.t < |r.buckets|
    ensures Along(r, EntryStores(r, p, k, o), h, w)
    ensures GroupMem(Run(r, EntryStores(r, p, k, o)), EntryDirty(r, d, p), h, w)
  {
    PlanFits(Overlay(r, d), h, k);
    PlanBounds(Overlay(r, d), h, k, p);
    match p
    case Update(l) => UpdateStaged(r, d, h, l, k, o, w);
    case Insert(l) => InsertStaged(r, d, h, l, k, o, w);
    case Extend(n, t) => ExtendStaged(r, d, h, n, t, k, o, w);
    case Full =>
      ExhaustList(r, h, k, o, w);
      assert EntryStores(r, Full, k, o) == PlanStores(r, Full, k, o);
  }

  // ---------------------------------------------------------------- the whole group

  /** Result of phase 1: the stores issued, the dirty list built, and the pairs written. */
  datatype Phase1 = Phase1(stores: seq<Store>, dirty: seq<Dirty>, written: nat)

  ghost predicate PairsIn(es: seq<Pair>, w: set<(Word, Word)>) {
    forall i :: 0 <= i < |es| ==> (es[i].key, es[i].off) in w
  }

  function PairSet(es: seq<Pair>): (w: set<(Word, Word)>)
    ensures PairsIn(es, w)
    ensures forall x :: x in w ==> Pair(x.0, x.1) in es
  {
    set i | 0 <= i < |es| :: (es[i].key, es[i].off)
  }

  /** One pair keeps the group well-formed. */
  lemma EntryStep(r: Region, d: seq<Dirty>, h: nat, k: Word, o: Word, w: set<(Word, Word)>, p: Plan)
    requires GroupState(r, d, h, w) && (k, o) in w && p == PlanOf(Overlay(r, d), h, k)
    ensures p.Extend? ==> p.t < |r.buckets|
    ensures Along(r, EntryStores(r, p, k, o), h, w)
    ensures GroupState(Run(r, EntryStores(r, p, k, o)), EntryDirty(r, d, p), h, w)
    ensures Overlay(Run(r, EntryStores(r, p, k, o)), EntryDirty(r, d, p)) == Upsert(Overlay(r, d), h, k, o)
  {
    EntryAlong(r, d, h, k, o, w, p);
    EntryRefines(r, d, h, k, o);
    UpsertCorrect(Overlay(r, d), h, k, o);
  }

  /** Phase 1 over the pairs of the group; running out of overflow buckets ends it. */
  ghost function Stage(r: Region, d: seq<Dirty>, h: nat, es: seq<Pair>, w: set<(Word, Word)>): (res: Phase1)
    requires GroupState(r, d, h, w) && PairsIn(es, w)
    ensures res.written <= |es|
    decreases |es|
  {
    if es == [] then Phase1([], d, 0)
    else
      var k, o := es[0].key, es[0].off;
      var p := PlanOf(Overlay(r, d), h, k);
      EntryStep(r, d, h, k, o, w, p);
      var ss := EntryStores(r, p, k, o);
      if p.Full? then Phase1(ss, d, 0)
      else
        var rest := Stage(Run(r, ss), EntryDirty(r, d, p), h, es[1..], w);
        Phase1(ss + rest.stores, rest.dirty, rest.written + 1)
  }

  lemma StartState(r: Region, h: nat, w: set<(Word, Word)>)
    requires Inv(r) && h < r.main
    ensures Overlay(r, []) == r && GroupState(r, [], h, w)
  {
    OverlayIs(r, [], r);
  }

  /** Everything `apply_bucket_group` does: phase 1, then the held-back occupancy bits. */
  ghost function GroupStores(r: Region, h: nat, es: seq<Pair>): (ss: seq<Store>)
    requires Inv(r) && h < r.main
  {
    StartState(r, h, PairSet(es));
    var s := Stage(r, [], h, es, PairSet(es));
    s.stores + FlipStores(s.dirty)
  }

  ghost function GroupWritten(r: Region, h: nat, es: seq<Pair>): (n: nat)
    requires Inv(r) && h < r.main
    ensures n <= |es|
  {
    StartState(r, h, PairSet(es));
    Stage(r, [], h, es, PairSet(es)).written
  }

  /** Phase 1 unfolds into one pair and the rest of the group. */
  lemma StageCons(r: Region, d: seq<Dirty>, h: nat, es: seq<Pair>, w: set<(Word, Word)>)
    returns (ss: seq<Store>, d1: seq<Dirty>)
    requires GroupState(r, d, h, w) && PairsIn(es, w)
    requires es != [] && UpsertOk(Overlay(r, d), h, es[0].key)
    ensures Along(r, ss, h, w) && GroupState(Run(r, ss), d1, h, w)
    ensures Overlay(Run(r, ss), d1) == Upsert(Overlay(r, d), h, es[0].key, es[0].off)
    ensures var rest := Stage(Run(r, ss), d1, h, es[1..], w);
            Stage(r, d, h, es, w) == Phase1(ss + rest.stores, rest.dirty, rest.written + 1)
  {
    var k, o := es[0].key, es[0].off;
    var p := PlanOf(Overlay(r, d), h, k);
    EntryStep(r, d, h, k, o, w, p);
    ss, d1 := EntryStores(r, p, k, o), EntryDirty(r, d, p);
  }

  lemma StageStop(r: Region, d: seq<Dirty>, h: nat, es: seq<Pair>, w: set<(Word, Word)>)
    requires GroupState(r, d, h, w) && PairsIn(es, w)
    requires es != [] && !UpsertOk(Overlay(r, d), h, es[0].key)
    ensures var s := Stage(r, d, h, es, w);
            && Along(r, s.stores, h, w) && Run(r, s.stores) == r
            && s.dirty == d && s.written == 0
  {
    EntryStep(r, d, h, es[0].key, es[0].off, w, Full);
    OverlayFull(r, d, es[0].key, es[0].off);
  }

  /** Phase 1 is harmless store by store and leaves the group well-formed. */
  lemma {:induction false} StageAlong(r: Region, d: seq<Dirty>, h: nat, es: seq<Pair>, w: set<(Word, Word)>)
    requires GroupState(r, d, h, w) && PairsIn(es, w)
    ensures var s := Stage(r, d, h, es, w);
            Along(r, s.stores, h, w) && GroupState(Run(r, s.stores), s.dirty, h, w)
    decreases |es|
  {
    if es == [] {
    } else if UpsertOk(Overlay(r, d), h, es[0].key) {
      var ss, d1 := StageCons(r, d, h, es, w);
      StageAlong(Run(r, ss), d1, h, es[1..], w);
      AlongThen(r, ss, Stage(Run(r, ss), d1, h, es[1..], w).stores, h, w);
    } else {
      StageStop(r, d, h, es, w);
    }
  }

  /** `v'` is what the first `n` upserts of `es` make of `v`; they all succeed, and `n` stops short of
      the end only at a pair whose upsert fails. */
  ghost predicate UpsertRun(v: Region, h: nat, es: seq<Pair>, n: nat, v': Region)
    requires Inv(v) && h < v.main && n <= |es|
    decreases n
  {
    if n == 0 then v' == v && (es == [] || !UpsertOk(v, h, es[0].key))
    else
      UpsertCorrect(v, h, es[0].key, es[0].off);
      UpsertOk(v, h, es[0].key) && UpsertRun(Upsert(v, h, es[0].key, es[0].off), h, es[1..], n - 1, v')
  }

  /** Under the overlay, phase 1 is a run of upserts. */
  lemma {:induction false} StageRefines(r: Region, d: seq<Dirty>, h: nat, es: seq<Pair>, w: set<(Word, Word)>)
    requires GroupState(r, d, h, w) && PairsIn(es, w)
    ensures var s := Stage(r, d, h, es, w);
            UpsertRun(Overlay(r, d), h, es, s.written, Overlay(Run(r, s.stores), s.dirty))
    decreases |es|
  {
    hide Upsert;
    if es == [] {
    } else if UpsertOk(Overlay(r, d), h, es[0].key) {
      var ss, d1 := StageCons(r, d, h, es, w);
      StageRefines(Run(r, ss), d1, h, es[1..], w);
      RunAppend(r, ss, Stage(Run(r, ss), d1, h, es[1..], w).stores);
    } else {
      StageStop(r, d, h, es, w);
    }
  }

  /** The batched form refines the simple one: same buckets, links and counters as the first `written`
      upserts in order, all of which succeed, and it stops only where the next upsert would fail. Every
      store on the way is harmless. */
  lemma GroupRefines(r: Region, h: nat, es: seq<Pair>)
    requires Inv(r) && h < r.main
    ensures Along(r, GroupStores(r, h, es), h, PairSet(es))
    ensures UpsertRun(r, h, es, GroupWritten(r, h, es), Run(r, GroupStores(r, h, es)))
  {
    var w := PairSet(es);
    StartState(r, h, w);
    StageRefines(r, [], h, es, w);
    StageAlong(r, [], h, es, w);
    var s := Stage(r, [], h, es, w);
    FlipCorrect(Run(r, s.stores), s.dirty, h, w);
    AlongThen(r, s.stores, FlipStores(s.dirty), h, w);
  }
}
