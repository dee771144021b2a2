/** `bulk_upsert`: each run of entries for one bucket is applied as a group. */
module ColdBulk {
  import opened Options
  import opened ColdRegion
  import opened ColdSteps
  import opened ColdUpsert
  import opened ColdGroup
  import opened ColdCrash
  import opened ColdMap
  import opened ColdTier

  datatype BulkEntry = BulkEntry(fp: Word, key: Word, off: Word)

  function PairsOf(es: seq<BulkEntry>): (ps: seq<Pair>)
    ensures |ps| == |es|
    ensures forall i :: 0 <= i < |es| ==> ps[i] == Pair(es[i].key, es[i].off)
  {
    seq(|es|, i requires 0 <= i < |es| => Pair(es[i].key, es[i].off))
  }

  /** The entry of `k` after all of `es`, given its entry before. */
  function Override(es: seq<BulkEntry>, k: Word, e: Option<Word>): (e': Option<Word>)
  {
    if LastOff(PairsOf(es), k).Some? then LastOff(PairsOf(es), k) else e
  }

  /** Entries carry the routing hash of their key. */
  ghost predicate Addressed(route: Word -> Word, es: seq<BulkEntry>) {
    forall i :: 0 <= i < |es| ==> es[i].fp == route(es[i].key) && es[i].off != TOMBSTONE
  }

  /** A run of entries for one chain. */
  ghost predicate OneChain(geo: Geo, es: seq<BulkEntry>, rid: nat, h: nat)
    requires geo.main > 0
  {
    forall i :: 0 <= i < |es| ==> RegionIdOf(es[i].fp) == rid && BucketIdOf(geo, es[i].fp) == h
  }

  // ---------------------------------------------------------------- one upsert at a time

  predicate SameChain(geo: Geo, a: BulkEntry, b: BulkEntry)
    requires geo.main > 0
  {
    RegionIdOf(a.fp) == RegionIdOf(b.fp) && BucketIdOf(geo, a.fp) == BucketIdOf(geo, b.fp)
  }

  /** Length of the run of entries at the front that go to one chain. */
  function RunLen(geo: Geo, es: seq<BulkEntry>): (n: nat)
    requires geo.main > 0 && es != []
    ensures 0 < n <= |es| && (forall i :: 0 <= i < n ==> SameChain(geo, es[0], es[i]))
    ensures n < |es| ==> !SameChain(geo, es[0], es[n])
    decreases |es|
  {
    if |es| == 1 || !SameChain(geo, es[0], es[1]) then 1 else 1 + RunLen(geo, es[1..])
  }

  /** The upsert of one entry. */
  function Single(geo: Geo, e: BulkEntry): (ev: Event)
    requires geo.main > 0
  {
    Finish(RegionIdOf(e.fp), Put(BucketIdOf(geo, e.fp), e.key, e.off))
  }

  /** Whether an upsert of `e` would find its key, a free slot or an overflow bucket. */
  ghost predicate Admits(geo: Geo, t: Tier, e: BulkEntry)
    requires TierInv(geo, t)
  {
    assert RegionInv(geo, t[RegionIdOf(e.fp)]);
    UpsertOk(t[RegionIdOf(e.fp)], BucketIdOf(geo, e.fp), e.key)
  }

  lemma SingleInv(geo: Geo, t: Tier, e: BulkEntry)
    requires TierInv(geo, t)
    ensures TierInv(geo, Step(geo, t, Single(geo, e)))
  {
    var t' := Step(geo, t, Single(geo, e));
    StepRegion(geo, t, Single(geo, e), 0, 0);
    forall rid | 0 <= rid < REGIONS ensures RegionInv(geo, t'[rid]) {
      assert RegionInv(geo, t[rid]);
    }
  }

  function Marks(n: nat, b: bool): (m: seq<bool>)
    ensures |m| == n && forall i :: 0 <= i < n ==> m[i] == b
  {
    seq(n, _ => b)
  }

  /** The reference for a bulk write: upsert the entries in order; where one fails, skip to the next chain. The marks
      say which entries were written. */
  ghost function OneByOne(geo: Geo, t: Tier, es: seq<BulkEntry>): (res: (Tier, seq<bool>))
    requires TierInv(geo, t)
    ensures TierInv(geo, res.0) && |res.1| == |es|
    decreases |es|
  {
    if es == [] then (t, [])
    else if Admits(geo, t, es[0]) then
      SingleInv(geo, t, es[0]);
      var rest := OneByOne(geo, Step(geo, t, Single(geo, es[0])), es[1..]);
      (rest.0, [true] + rest.1)
    else
      var n := RunLen(geo, es);
      var rest := OneByOne(geo, t, es[n..]);
      (rest.0, Marks(n, false) + rest.1)
  }

  /** Number of entries written. */
  function Trues(done: seq<bool>): (n: nat)
    ensures n <= |done|
  {
    if done == [] then 0 else (if done[0] then 1 else 0) + Trues(done[1..])
  }

  /** The entries written. */
  function Written(es: seq<BulkEntry>, done: seq<bool>): (ws: seq<BulkEntry>)
    requires |done| == |es|
    ensures |ws| == Trues(done)
  {
    if es == [] then [] else (if done[0] then [es[0]] else []) + Written(es[1..], done[1..])
  }

  lemma {:induction false} TruesAppend(a: seq<bool>, b: seq<bool>)
    ensures Trues(a + b) == Trues(a) + Trues(b)
    decreases |a|
  {
    if a == [] {
      assert a + b == b;
    } else {
      assert (a + b)[1..] == a[1..] + b;
      TruesAppend(a[1..], b);
    }
  }

  lemma {:induction false} TruesMarks(n: nat, b: bool)
    ensures Trues(Marks(n, b)) == if b then n else 0
    decreases n
  {
    if n > 0 {
      assert Marks(n, b)[1..] == Marks(n - 1, b);
      TruesMarks(n - 1, b);
    }
  }

  // ---------------------------------------------------------------- a group is a run of upserts

  /** `h` is a chain of the legal region `rid`. */
  ghost predicate Chain(geo: Geo, t: Tier, rid: nat, h: nat) {
    TierInv(geo, t) && rid < REGIONS && h < geo.main && RegionInv(geo, t[rid])
  }

  /** What comes next goes to another chain. */
  predicate Elsewhere(geo: Geo, es: seq<BulkEntry>, rid: nat, h: nat)
    requires geo.main > 0
  {
    es != [] ==> !(RegionIdOf(es[0].fp) == rid && BucketIdOf(geo, es[0].fp) == h)
  }

  /** The reference deals with `es` by leaving `marks`, and then as from `t'` with `rest`. */
  ghost predicate Continues(geo: Geo, t: Tier, es: seq<BulkEntry>, marks: seq<bool>, t': Tier, rest: seq<BulkEntry>) {
    && TierInv(geo, t) && TierInv(geo, t')
    && OneByOne(geo, t, es) == (OneByOne(geo, t', rest).0, marks + OneByOne(geo, t', rest).1)
  }

  lemma RunLenIs(geo: Geo, run: seq<BulkEntry>, rest: seq<BulkEntry>)
    requires geo.main > 0 && run != [] && forall i :: 0 <= i < |run| ==> SameChain(geo, run[0], run[i])
    requires rest != [] ==> !SameChain(geo, run[0], rest[0])
    ensures RunLen(geo, run + rest) == |run|
  {
    var es := run + rest;
    assert forall i :: 0 <= i < |run| ==> es[i] == run[i];
    assert rest != [] ==> es[|run|] == rest[0];
  }

  lemma StopsRun(geo: Geo, t: Tier, run: seq<BulkEntry>, rest: seq<BulkEntry>, rid: nat, h: nat)
    requires TierInv(geo, t) && OneChain(geo, run, rid, h) && run != [] && !Admits(geo, t, run[0])
    requires Elsewhere(geo, rest, rid, h)
    ensures Continues(geo, t, run + rest, Marks(|run|, false), t, rest)
  {
    RunLenIs(geo, run, rest);
    assert (run + rest)[|run|..] == rest && (run + rest)[0] == run[0];
  }

  /** The upserts a group stands for are those of the reference. */
  lemma {:induction false} RunIsOneByOne(geo: Geo, t: Tier, run: seq<BulkEntry>, rest: seq<BulkEntry>, rid: nat,
                                         h: nat, n: nat, r': Region)
    requires Chain(geo, t, rid, h) && OneChain(geo, run, rid, h) && Elsewhere(geo, rest, rid, h)
    requires n <= |run| && UpsertRun(t[rid], h, PairsOf(run), n, r')
    ensures Continues(geo, t, run + rest, Marks(n, true) + Marks(|run| - n, false), t[rid := r'], rest)
    decreases n
  {
    hide OneByOne, RegionInv, UpsertRun, Step, Admits;
    if n == 0 {
      NoneWritten(geo, t, run, rest, rid, h, r');
    } else {
      var t1 := Step(geo, t, Single(geo, run[0]));
      NextUpsert(geo, t, run, rid, h, n, r', t1);
      RunIsOneByOne(geo, t1, run[1..], rest, rid, h, n - 1, r');
      assert (run + rest)[1..] == run[1..] + rest && (run + rest)[0] == run[0];
      Admitted(geo, t, run + rest);
      hide OneChain, TierInv;
      assert t1[rid := r'] == t[rid := r'];
      MarksCons(n, |run| - n, OneByOne(geo, t[rid := r'], rest).1);
    }
  }

  lemma NoneWritten(geo: Geo, t: Tier, run: seq<BulkEntry>, rest: seq<BulkEntry>, rid: nat, h: nat, r': Region)
    requires Chain(geo, t, rid, h) && OneChain(geo, run, rid, h) && Elsewhere(geo, rest, rid, h)
    requires UpsertRun(t[rid], h, PairsOf(run), 0, r')
    ensures Continues(geo, t, run + rest, Marks(0, true) + Marks(|run|, false), t[rid := r'], rest)
  {
    assert t[rid := r'] == t;
    if run == [] {
      assert run + rest == rest && Marks(0, true) + Marks(0, false) == [];
      assert [] + OneByOne(geo, t, rest).1 == OneByOne(geo, t, rest).1;
    } else {
      StopsRun(geo, t, run, rest, rid, h);
      assert Marks(0, true) + Marks(|run|, false) == Marks(|run|, false);
    }
  }

  lemma Admitted(geo: Geo, t: Tier, es: seq<BulkEntry>)
    requires TierInv(geo, t) && es != [] && Admits(geo, t, es[0])
    ensures TierInv(geo, Step(geo, t, Single(geo, es[0])))
    ensures var rest := OneByOne(geo, Step(geo, t, Single(geo, es[0])), es[1..]);
            OneByOne(geo, t, es) == (rest.0, [true] + rest.1)
  {
    SingleInv(geo, t, es[0]);
    hide TierInv, Step, Admits;
  }

  lemma MarksCons(n: nat, m: nat, rest: seq<bool>)
    requires n > 0
    ensures [true] + (Marks(n - 1, true) + Marks(m, false) + rest) == Marks(n, true) + Marks(m, false) + rest
  {
    assert [true] + Marks(n - 1, true) == Marks(n, true);
    hide Marks;
    assert [true] + (Marks(n - 1, true) + Marks(m, false) + rest) == [true] + Marks(n - 1, true) + Marks(m, false) + rest;
  }

  lemma NextUpsert(geo: Geo, t: Tier, run: seq<BulkEntry>, rid: nat, h: nat, n: nat, r': Region, t1: Tier)
    requires Chain(geo, t, rid, h) && OneChain(geo, run, rid, h)
    requires 0 < n <= |run| && UpsertRun(t[rid], h, PairsOf(run), n, r') && t1 == Step(geo, t, Single(geo, run[0]))
    ensures Admits(geo, t, run[0]) && Chain(geo, t1, rid, h) && OneChain(geo, run[1..], rid, h)
    ensures t1 == t[rid := t1[rid]] && UpsertRun(t1[rid], h, PairsOf(run[1..]), n - 1, r')
  {
    SingleInv(geo, t, run[0]);
    assert PairsOf(run)[1..] == PairsOf(run[1..]) && PairsOf(run)[0] == Pair(run[0].key, run[0].off);
    hide Inv, Upsert;
  }

  /** One group of the bulk write. */
  lemma GroupIsOneByOne(geo: Geo, t: Tier, es: seq<BulkEntry>, i: nat, j: nat, rid: nat, h: nat, n: nat, t': Tier)
    requires Chain(geo, t, rid, h) && i <= j <= |es| && OneChain(geo, es[i..j], rid, h) && Elsewhere(geo, es[j..], rid, h)
    requires n == GroupWritten(t[rid], h, PairsOf(es[i..j]))
    requires t' == t[rid := Run(t[rid], GroupStores(t[rid], h, PairsOf(es[i..j])))]
    ensures n <= j - i && Continues(geo, t, es[i..], Marks(n, true) + Marks(j - i - n, false), t', es[j..])
  {
    hide GroupStores, GroupWritten, Inv, Run, UpsertRun, Continues, OneChain, Elsewhere;
    var run, rest := es[i..j], es[j..];
    GroupRefines(t[rid], h, PairsOf(run));
    assert es[i..] == run + rest;
    RunIsOneByOne(geo, t, run, rest, rid, h, n, t'[rid]);
  }

  // ---------------------------------------------------------------- the method

  /** How far the bulk write has come: the first `i` entries are dealt with, and `marks` says how. */
  ghost predicate Bulked(geo: Geo, t0: Tier, t: Tier, es: seq<BulkEntry>, i: nat, marks: seq<bool>, total: nat) {
    i == |marks| <= |es| && total == Trues(marks) && Continues(geo, t0, es, marks, t, es[i..])
  }

  lemma BulkedNext(geo: Geo, t0: Tier, t: Tier, es: seq<BulkEntry>, i: nat, marks: seq<bool>, total: nat, j: nat,
                   rid: nat, h: nat, n: nat, t': Tier)
    returns (marks': seq<bool>)
    requires Bulked(geo, t0, t, es, i, marks, total)
    requires Chain(geo, t, rid, h) && i <= j <= |es| && OneChain(geo, es[i..j], rid, h) && Elsewhere(geo, es[j..], rid, h)
    requires n == GroupWritten(t[rid], h, PairsOf(es[i..j]))
    requires t' == t[rid := Run(t[rid], GroupStores(t[rid], h, PairsOf(es[i..j])))]
    ensures Bulked(geo, t0, t', es, j, marks', total + n)
  {
    hide OneByOne, Run, TierInv, OneChain, RegionInv, GroupStores, PairsOf;
    GroupIsOneByOne(geo, t, es, i, j, rid, h, n, t');
    marks' := marks + (Marks(n, true) + Marks(j - i - n, false));
    GroupMarks(marks, n, j - i - n, OneByOne(geo, t', es[j..]).1);
  }

  lemma GroupMarks(marks: seq<bool>, n: nat, m: nat, rest: seq<bool>)
    ensures var group := Marks(n, true) + Marks(m, false);
            Trues(marks + group) == Trues(marks) + n && marks + (group + rest) == marks + group + rest
  {
    TruesMarks(n, true);
    TruesMarks(m, false);
    TruesAppend(Marks(n, true), Marks(m, false));
    TruesAppend(marks, Marks(n, true) + Marks(m, false));
  }

  /** Write a batch that the library sort has already clustered by bucket (`entries` is its output; the
      result does not depend on the order, see `OrderIrrelevant`). It leaves what upserting the entries one by one
      leaves, where a failing one makes the rest of its run be skipped, and returns how many were written. */
  method BulkUpsert(tier: ColdTier, entries: seq<BulkEntry>) returns (total: nat)
    requires tier.Valid()
    modifies tier
    ensures tier.Valid() && old(TierInv(tier.geo, tier.regions))
    ensures tier.regions == OneByOne(tier.geo, old(tier.regions), entries).0
    ensures total == Trues(OneByOne(tier.geo, old(tier.regions), entries).1)
  {
    hide RegionInv, GroupWritten, GroupStores, OneByOne, Trues;
    ghost var t0 := tier.regions;
    total := 0;
    var i := 0;
    ghost var marks: seq<bool> := [];
    BulkedStart(tier.geo, t0, entries);
    while i < |entries|
      invariant Bulked(tier.geo, t0, tier.regions, entries, i, marks, total)
    {
      var rid, bid := RegionIdOf(entries[i].fp), BucketIdOf(tier.geo, entries[i].fp);
      var j := i + 1;
      while j < |entries| && RegionIdOf(entries[j].fp) == rid && BucketIdOf(tier.geo, entries[j].fp) == bid
        invariant i < j <= |entries|
        invariant forall x :: i <= x < j ==> RegionIdOf(entries[x].fp) == rid && BucketIdOf(tier.geo, entries[x].fp) == bid
      {
        j := j + 1;
      }
      assert OneChain(tier.geo, entries[i..j], rid, bid);
      ghost var t := tier.regions;
      var n := tier.ApplyBucketGroup(rid, bid, PairsOf(entries[i..j]));
      marks := BulkedNext(tier.geo, t0, t, entries, i, marks, total, j, rid, bid, n, tier.regions);
      total := total + n;
      i := j;
    }
    BulkedEnd(tier.geo, t0, tier.regions, entries, marks, total);
  }

  lemma BulkedStart(geo: Geo, t: Tier, es: seq<BulkEntry>)
    requires TierInv(geo, t)
    ensures Bulked(geo, t, t, es, 0, [], 0)
  {
    assert es[0..] == es;
    assert [] + OneByOne(geo, t, es).1 == OneByOne(geo, t, es).1;
  }

  lemma BulkedEnd(geo: Geo, t0: Tier, t: Tier, es: seq<BulkEntry>, marks: seq<bool>, total: nat)
    requires Bulked(geo, t0, t, es, |es|, marks, total)
    ensures TierInv(geo, t) && TierInv(geo, t0) && OneByOne(geo, t0, es) == (t, marks) && total == Trues(marks)
  {
    assert es[|es|..] == [] && marks + [] == marks;
  }

  // ---------------------------------------------------------------- what a bulk write does to the map

  lemma AddressedTail(route: Word -> Word, es: seq<BulkEntry>, n: nat)
    requires Addressed(route, es) && n <= |es|
    ensures Addressed(route, es[n..])
  {
  }

  /** One admitted entry sets its key and no other. */
  lemma SingleEffect(geo: Geo, route: Word -> Word, t: Tier, e: BulkEntry, k: Word)
    requires TierInv(geo, t) && Homed(geo, route, t) && e.fp == route(e.key) && Admits(geo, t, e)
    ensures var t1 := Step(geo, t, Single(geo, e));
            && TierInv(geo, t1) && Homed(geo, route, t1)
            && TierEnt(geo, route, t1, k) == if k == e.key then Some(e.off) else TierEnt(geo, route, t, k)
  {
    var ev := Single(geo, e);
    assert Routed(geo, route, ev);
    assert RegionInv(geo, t[RegionIdOf(e.fp)]);
    StepInv(geo, route, t, ev);
    FinishDoes(geo, route, t, ev, k);
    hide TierInv, Homed;
  }

  lemma OverrideCons(es: seq<BulkEntry>, k: Word, e: Option<Word>)
    requires es != []
    ensures Override(es, k, e) == Override(es[1..], k, if k == es[0].key then Some(es[0].off) else e)
  {
    assert PairsOf(es)[1..] == PairsOf(es[1..]);
  }

  lemma {:induction false} WrittenSkips(es: seq<BulkEntry>, n: nat, done: seq<bool>)
    requires n <= |es| && |done| == |es| - n
    ensures Written(es, Marks(n, false) + done) == Written(es[n..], done)
    decreases n
  {
    if n == 0 {
      assert Marks(0, false) + done == done && es[0..] == es;
    } else {
      assert (Marks(n, false) + done)[1..] == Marks(n - 1, false) + done && es[1..][n - 1..] == es[n..];
      WrittenSkips(es[1..], n - 1, done);
    }
  }

  /** The map after a bulk write is the old one overridden by exactly the entries written, in order; every key stays
      at home. */
  lemma {:induction false} BulkMap(geo: Geo, route: Word -> Word, t: Tier, es: seq<BulkEntry>, k: Word)
    requires TierInv(geo, t) && Homed(geo, route, t) && Addressed(route, es)
    ensures var (t', done) := OneByOne(geo, t, es);
            && Homed(geo, route, t')
            && TierEnt(geo, route, t', k) == Override(Written(es, done), k, TierEnt(geo, route, t, k))
    decreases |es|
  {
    if es == [] {
    } else if Admits(geo, t, es[0]) {
      AddressedTail(route, es, 1);
      SingleEffect(geo, route, t, es[0], k);
      var t1 := Step(geo, t, Single(geo, es[0]));
      BulkMap(geo, route, t1, es[1..], k);
      var done := OneByOne(geo, t1, es[1..]).1;
      assert ([true] + done)[1..] == done;
      var ws := Written(es, [true] + done);
      assert ws[1..] == Written(es[1..], done) && ws[0] == es[0];
      OverrideCons(ws, k, TierEnt(geo, route, t, k));
    } else {
      var n := RunLen(geo, es);
      AddressedTail(route, es, n);
      BulkMap(geo, route, t, es[n..], k);
      WrittenSkips(es, n, OneByOne(geo, t, es[n..]).1);
    }
  }

  // ---------------------------------------------------------------- what stops a run

  /** The pool of the region of `e` is used up and its chain has no unpublished slot. */
  ghost predicate NoRoom(geo: Geo, t: Tier, e: BulkEntry)
    requires TierInv(geo, t)
  {
    assert RegionInv(geo, t[RegionIdOf(e.fp)]);
    t[RegionIdOf(e.fp)].alloc >= geo.over && ChainFull(t[RegionIdOf(e.fp)], BucketIdOf(geo, e.fp))
  }

  /** An upsert into a region without overflow buckets opens no slot and takes no bucket. */
  lemma FullStays(r: Region, g: nat, h: nat, k: Word, o: Word)
    requires Inv(r) && g < r.main && h < r.main && r.alloc >= r.over && ChainFull(r, g)
    ensures var r' := Upsert(r, h, k, o);
            Inv(r') && r'.over == r.over && r'.main == r.main && r'.alloc == r.alloc && ChainFull(r', g)
  {
    UpsertCorrect(r, h, k, o);
    UpsertRoom(r, h, k, o);
    var r' := Upsert(r, h, k, o);
    LinksStay(r, h, k, o);
    hide Upsert, Inv, UpsertOk;
    forall b: nat, i: nat | Reach(r', g, b) && b < |r'.buckets| && i < SLOTS ensures i in r'.buckets[b].occ {
      ReachSame(r, r', g, b);
      assert GrowsBucket(r.buckets[b], r'.buckets[b]);
    }
  }

  lemma LinksStay(r: Region, h: nat, k: Word, o: Word)
    requires Inv(r) && h < r.main && r.alloc >= r.over
    ensures SameLinks(r, Upsert(r, h, k, o))
  {
    var p := PlanOf(r, h, k);
    PlanBounds(r, h, k, p);
    match p
    case Update(l) => RunOne(r, SetOff(l.b, l.i, o));
    case Insert(l) =>
      RunInsertUpsert(r, l, k, o, FilledBucket(r.buckets[l.b], l.i, k, o).(occ := r.buckets[l.b].occ + {l.i}));
    case Full => UpsertCorrect(r, h, k, o);
  }

  lemma SingleNoRoom(geo: Geo, t: Tier, e: BulkEntry, x: BulkEntry)
    requires TierInv(geo, t) && NoRoom(geo, t, x)
    ensures TierInv(geo, Step(geo, t, Single(geo, e))) && NoRoom(geo, Step(geo, t, Single(geo, e)), x)
  {
    SingleInv(geo, t, e);
    var rid := RegionIdOf(x.fp);
    assert RegionInv(geo, t[rid]);
    if RegionIdOf(e.fp) == rid {
      FullStays(t[rid], BucketIdOf(geo, x.fp), BucketIdOf(geo, e.fp), e.key, e.off);
    }
  }

  lemma {:induction false} NoRoomStays(geo: Geo, t: Tier, es: seq<BulkEntry>, x: BulkEntry)
    requires TierInv(geo, t) && NoRoom(geo, t, x)
    ensures NoRoom(geo, OneByOne(geo, t, es).0, x)
    decreases |es|
  {
    if es == [] {
    } else if Admits(geo, t, es[0]) {
      SingleNoRoom(geo, t, es[0], x);
      NoRoomStays(geo, Step(geo, t, Single(geo, es[0])), es[1..], x);
    } else {
      NoRoomStays(geo, t, es[RunLen(geo, es)..], x);
    }
  }

  /** An entry is refused exactly when its key is not stored and there is no room for it. */
  lemma AdmitsIff(geo: Geo, route: Word -> Word, t: Tier, e: BulkEntry)
    requires TierInv(geo, t) && e.fp == route(e.key)
    ensures Admits(geo, t, e) <==> TierEnt(geo, route, t, e.key).Some? || !NoRoom(geo, t, e)
  {
    assert RegionInv(geo, t[RegionIdOf(e.fp)]);
    UpsertRoom(t[RegionIdOf(e.fp)], BucketIdOf(geo, e.fp), e.key, e.off);
  }

  /** The entry is the first of its run that was not written. */
  predicate Stops(geo: Geo, es: seq<BulkEntry>, done: seq<bool>, i: nat)
    requires geo.main > 0 && |done| == |es| && i < |es|
  {
    !done[i] && (i == 0 || done[i - 1] || !SameChain(geo, es[i - 1], es[i]))
  }

  /** Why entry `i` was not written, if it was not: its chain is full and the pool of its region used up, and after it
      nothing of its run is written; the first such of a run has a key that was neither stored before nor written by
      an earlier entry. */
  ghost predicate Explained(geo: Geo, route: Word -> Word, t: Tier, es: seq<BulkEntry>, t': Tier, done: seq<bool>, i: nat)
    requires TierInv(geo, t) && TierInv(geo, t') && |done| == |es| && i < |es|
  {
    && (!done[i] ==> NoRoom(geo, t', es[i]))
    && (!done[i] && i + 1 < |es| && SameChain(geo, es[i], es[i + 1]) ==> !done[i + 1])
    && (Stops(geo, es, done, i) ==>
          TierEnt(geo, route, t, es[i].key).None? && forall j :: 0 <= j < i && done[j] ==> es[j].key != es[i].key)
  }

  /** So is every entry of a bulk write. */
  lemma {:induction false} BulkStops(geo: Geo, route: Word -> Word, t: Tier, es: seq<BulkEntry>, i: nat)
    requires TierInv(geo, t) && Homed(geo, route, t) && Addressed(route, es) && i < |es|
    ensures var (t', done) := OneByOne(geo, t, es); Explained(geo, route, t, es, t', done, i)
    decreases |es|
  {
    hide OneByOne, Explained, Step, TierEnt, Admits;
    if Admits(geo, t, es[0]) {
      if i == 0 {
        Admitted(geo, t, es);
        WrittenExplained(geo, route, t, es, OneByOne(geo, t, es).0, OneByOne(geo, t, es).1);
      } else {
        var t1 := Step(geo, t, Single(geo, es[0]));
        AddressedTail(route, es, 1);
        SingleEffect(geo, route, t, es[0], es[i].key);
        BulkStops(geo, route, t1, es[1..], i - 1);
        Admitted(geo, t, es);
        ExplainedAfter(geo, route, t, es, t1, OneByOne(geo, t1, es[1..]).0, OneByOne(geo, t1, es[1..]).1, i);
      }
    } else {
      var n := RunLen(geo, es);
      if i < n {
        SkippedExplained(geo, route, t, es, i);
      } else {
        AddressedTail(route, es, n);
        BulkStops(geo, route, t, es[n..], i - n);
        ExplainedBehind(geo, route, t, es, n, i);
      }
    }
  }

  lemma WrittenExplained(geo: Geo, route: Word -> Word, t: Tier, es: seq<BulkEntry>, t': Tier, done: seq<bool>)
    requires TierInv(geo, t) && TierInv(geo, t') && |done| == |es| > 0 && done[0]
    ensures Explained(geo, route, t, es, t', done, 0)
  {
  }

  /** A written entry in front explains no entry behind it. */
  lemma ExplainedAfter(geo: Geo, route: Word -> Word, t: Tier, es: seq<BulkEntry>, t1: Tier, t': Tier, rest: seq<bool>,
                       i: nat)
    requires TierInv(geo, t) && TierInv(geo, t1) && TierInv(geo, t') && 0 < i < |es| && |rest| == |es| - 1
    requires var k := es[i].key;
             TierEnt(geo, route, t1, k) == if k == es[0].key then Some(es[0].off) else TierEnt(geo, route, t, k)
    requires Explained(geo, route, t1, es[1..], t', rest, i - 1)
    ensures Explained(geo, route, t, es, t', [true] + rest, i)
  {
    assert geo.main > 0;
    hide TierEnt, TierInv, NoRoom, SameChain;
    var done := [true] + rest;
    assert es[1..][i - 1] == es[i] && done[i] == rest[i - 1];
    assert i + 1 < |es| ==> es[1..][i] == es[i + 1] && done[i + 1] == rest[i];
    if Stops(geo, es, done, i) {
      assert i > 1 ==> es[1..][i - 2] == es[i - 1] && done[i - 1] == rest[i - 2];
      assert Stops(geo, es[1..], rest, i - 1);
      forall j | 0 <= j < i && done[j] ensures es[j].key != es[i].key {
        if j > 0 {
          assert rest[j - 1] && es[1..][j - 1] == es[j];
        }
      }
    }
  }

  lemma ExplainedBehind(geo: Geo, route: Word -> Word, t: Tier, es: seq<BulkEntry>, n: nat, i: nat)
    requires TierInv(geo, t) && es != [] && !Admits(geo, t, es[0]) && n == RunLen(geo, es) && n <= i < |es|
    requires var (t', done) := OneByOne(geo, t, es[n..]); Explained(geo, route, t, es[n..], t', done, i - n)
    ensures var (t', done) := OneByOne(geo, t, es); Explained(geo, route, t, es, t', done, i)
  {
    var (t', rest) := OneByOne(geo, t, es[n..]);
    var done := Marks(n, false) + rest;
    assert OneByOne(geo, t, es) == (t', done);
    hide OneByOne, TierEnt, TierInv, NoRoom, Admits;
    Shifted(geo, route, t, es, t', n, rest, i);
  }

  /** Skipping `n` entries, the last of which is on another chain than the next, explains no entry behind them. */
  lemma Shifted(geo: Geo, route: Word -> Word, t: Tier, es: seq<BulkEntry>, t': Tier, n: nat, rest: seq<bool>, i: nat)
    requires TierInv(geo, t) && TierInv(geo, t') && n <= i < |es| && |rest| == |es| - n
    requires 0 < n && !SameChain(geo, es[n - 1], es[n])
    requires Explained(geo, route, t, es[n..], t', rest, i - n)
    ensures Explained(geo, route, t, es, t', Marks(n, false) + rest, i)
  {
    assert geo.main > 0;
    hide TierEnt, TierInv, NoRoom, SameChain;
    var done := Marks(n, false) + rest;
    assert es[n..][i - n] == es[i] && done[i] == rest[i - n];
    assert i + 1 < |es| ==> es[n..][i + 1 - n] == es[i + 1] && done[i + 1] == rest[i + 1 - n];
    if Stops(geo, es, done, i) {
      assert i > n ==> es[n..][i - 1 - n] == es[i - 1] && done[i - 1] == rest[i - 1 - n];
      assert Stops(geo, es[n..], rest, i - n);
      forall j | 0 <= j < i && done[j] ensures es[j].key != es[i].key {
        assert j >= n && rest[j - n] && es[n..][j - n] == es[j];
      }
    }
  }

  lemma SkippedExplained(geo: Geo, route: Word -> Word, t: Tier, es: seq<BulkEntry>, i: nat)
    requires TierInv(geo, t) && Addressed(route, es) && es != [] && !Admits(geo, t, es[0]) && i < RunLen(geo, es)
    ensures var (t', done) := OneByOne(geo, t, es); Explained(geo, route, t, es, t', done, i)
  {
    var n := RunLen(geo, es);
    AdmitsIff(geo, route, t, es[0]);
    assert SameChain(geo, es[0], es[i]);
    assert NoRoom(geo, t, es[i]);
    NoRoomStays(geo, t, es[n..], es[i]);
    var (t', rest) := OneByOne(geo, t, es[n..]);
    var done := Marks(n, false) + rest;
    assert OneByOne(geo, t, es) == (t', done);
    hide OneByOne, TierEnt, TierInv, NoRoom;
    if i > 0 {
      assert !done[i - 1] && SameChain(geo, es[0], es[i - 1]);
      assert !Stops(geo, es, done, i);
    }
    if i + 1 == n && n < |es| {
      assert !SameChain(geo, es[0], es[n]);
    }
  }

  /** If the count returned falls short, some entry found its chain full and the pool of its region used up. */
  lemma {:induction false} BulkShort(geo: Geo, t: Tier, es: seq<BulkEntry>)
    requires TierInv(geo, t)
    ensures var (t', done) := OneByOne(geo, t, es);
            Trues(done) < |es| ==> exists i :: 0 <= i < |es| && !done[i] && NoRoom(geo, t', es[i])
    decreases |es|
  {
    if es == [] {
    } else if Admits(geo, t, es[0]) {
      Admitted(geo, t, es);
      var t1 := Step(geo, t, Single(geo, es[0]));
      BulkShort(geo, t1, es[1..]);
      var (t', done) := OneByOne(geo, t, es);
      hide OneByOne, NoRoom, Step, TierInv;
      assert done[1..] == OneByOne(geo, t1, es[1..]).1;
      if Trues(done) < |es| {
        var i :| 0 <= i < |es| - 1 && !done[1..][i] && NoRoom(geo, t', es[1..][i]);
        assert !done[i + 1] && NoRoom(geo, t', es[i + 1]);
      }
    } else {
      RefusedNoRoom(geo, t, es[0]);
      NoRoomStays(geo, t, es[RunLen(geo, es)..], es[0]);
      assert !OneByOne(geo, t, es).1[0] && NoRoom(geo, OneByOne(geo, t, es).0, es[0]);
    }
  }

  lemma RefusedNoRoom(geo: Geo, t: Tier, e: BulkEntry)
    requires TierInv(geo, t) && !Admits(geo, t, e)
    ensures NoRoom(geo, t, e)
  {
    assert RegionInv(geo, t[RegionIdOf(e.fp)]);
    UpsertRoom(t[RegionIdOf(e.fp)], BucketIdOf(geo, e.fp), e.key, e.off);
  }

  // ---------------------------------------------------------------- enough room

  /** Entries that go to region `rid`. */
  function CountTo(es: seq<BulkEntry>, rid: nat): (n: nat) {
    if es == [] then 0 else (if RegionIdOf(es[0].fp) == rid then 1 else 0) + CountTo(es[1..], rid)
  }

  ghost predicate Roomy(geo: Geo, t: Tier, es: seq<BulkEntry>)
    requires TierInv(geo, t)
  {
    forall rid: nat :: rid < REGIONS ==> t[rid].alloc + CountTo(es, rid) <= geo.over
  }

  lemma RoomyNext(geo: Geo, t: Tier, es: seq<BulkEntry>)
    requires TierInv(geo, t) && Roomy(geo, t, es) && es != []
    ensures var t1 := Step(geo, t, Single(geo, es[0]));
            Admits(geo, t, es[0]) && TierInv(geo, t1) && Roomy(geo, t1, es[1..])
  {
    var t1, rid, h := Step(geo, t, Single(geo, es[0])), RegionIdOf(es[0].fp), BucketIdOf(geo, es[0].fp);
    SingleInv(geo, t, es[0]);
    assert RegionInv(geo, t[rid]);
    assert t[rid].alloc + CountTo(es, rid) <= geo.over;
    UpsertRoom(t[rid], h, es[0].key, es[0].off);
    assert t1[rid] == Upsert(t[rid], h, es[0].key, es[0].off);
    hide Upsert, TierInv;
    forall x: nat | x < REGIONS ensures t1[x].alloc + CountTo(es[1..], x) <= geo.over {
      assert t[x].alloc + CountTo(es, x) <= geo.over;
    }
  }

  /** With an overflow bucket left in each region for every entry that goes there, all entries are written. */
  lemma {:induction false} BulkRoom(geo: Geo, t: Tier, es: seq<BulkEntry>)
    requires TierInv(geo, t) && Roomy(geo, t, es)
    ensures var (t', done) := OneByOne(geo, t, es); Trues(done) == |es| && Written(es, done) == es
    decreases |es|
  {
    if es != [] {
      RoomyNext(geo, t, es);
      var t1 := Step(geo, t, Single(geo, es[0]));
      BulkRoom(geo, t1, es[1..]);
      var done := OneByOne(geo, t1, es[1..]).1;
      assert ([true] + done)[1..] == done;
      assert OneByOne(geo, t, es).1 == [true] + done;
    }
  }

  // ---------------------------------------------------------------- the sort does not matter

  ghost predicate DistinctKeys(es: seq<BulkEntry>) {
    forall i, j :: 0 <= i < j < |es| ==> es[i].key != es[j].key
  }

  lemma {:induction false} LastOffDistinct(es: seq<BulkEntry>, i: nat)
    requires DistinctKeys(es) && i < |es|
    ensures LastOff(PairsOf(es), es[i].key) == Some(es[i].off)
  {
    assert PairsOf(es)[1..] == PairsOf(es[1..]);
    if i > 0 {
      LastOffDistinct(es[1..], i - 1);
    } else if LastOff(PairsOf(es[1..]), es[0].key).Some? {
      LastOffKey(PairsOf(es[1..]), es[0].key);
    }
  }

  /** With the caller's guarantee of distinct keys, any two orders of the same entries override alike. */
  lemma OrderIrrelevant(a: seq<BulkEntry>, b: seq<BulkEntry>, k: Word, e: Option<Word>)
    requires multiset(a) == multiset(b) && DistinctKeys(a) && DistinctKeys(b)
    ensures Override(a, k, e) == Override(b, k, e)
  {
    if LastOff(PairsOf(a), k).Some? {
      SameLast(a, b, k);
    } else if LastOff(PairsOf(b), k).Some? {
      SameLast(b, a, k);
    }
  }

  lemma SameLast(a: seq<BulkEntry>, b: seq<BulkEntry>, k: Word)
    requires multiset(a) == multiset(b) && DistinctKeys(a) && DistinctKeys(b) && LastOff(PairsOf(a), k).Some?
    ensures LastOff(PairsOf(b), k) == LastOff(PairsOf(a), k)
  {
    LastOffKey(PairsOf(a), k);
    var i :| 0 <= i < |a| && PairsOf(a)[i].key == k;
    LastOffDistinct(a, i);
    assert a[i] in multiset(b);
    var j :| 0 <= j < |b| && b[j] == a[i];
    LastOffDistinct(b, j);
  }
}
