/** The cold tier as a whole: 32 regions, each key at home on one chain of one of them. */
module ColdMap {
  import opened Options
  import opened Powers
  import opened ColdRegion
  import opened ColdGroup
  import opened ColdCrash
  import opened ColdCount

  const REGIONS: nat := 32

  /** Table geometry. `mix` stands for the 64-bit mixer of `bucket_id_of`; the mask with a power of two
      minus one is a remainder. */
  datatype Geo = Geo(main: nat, over: nat, mix: Word -> nat)

  /** The top five bits of the routing hash. */
  function RegionIdOf(fp: Word): (rid: nat)
    ensures rid < REGIONS
  {
    fp / 0x0800_0000_0000_0000
  }

  /** What is below the region number are 59 bits. */
  lemma TopBits(fp: Word)
    ensures RegionIdOf(fp) * Pow2(59) <= fp < (RegionIdOf(fp) + 1) * Pow2(59)
  {
    Pow59();
  }

  function BucketIdOf(geo: Geo, fp: Word): (b: nat)
    requires geo.main > 0
    ensures b < geo.main
  {
    geo.mix(fp) % geo.main
  }

  type Tier = seq<Region>

  ghost predicate TierInv(geo: Geo, t: Tier) {
    && geo.main > 0 && |t| == REGIONS
    && forall rid :: 0 <= rid < REGIONS ==> RegionInv(geo, t[rid])
  }

  ghost predicate RegionInv(geo: Geo, r: Region) {
    Inv(r) && r.main == geo.main && r.over == geo.over
  }

  /** Keys are stored only on the chain their routing hash selects. */
  ghost predicate Homed(geo: Geo, route: Word -> Word, t: Tier)
    requires TierInv(geo, t)
  {
    forall rid: nat, h: nat, k: Word ::
      rid < REGIONS && h < geo.main && Stored(geo, t, rid, h, k) ==> At(geo, route, k, rid, h)
  }

  ghost predicate Stored(geo: Geo, t: Tier, rid: nat, h: nat, k: Word)
    requires TierInv(geo, t) && rid < REGIONS && h < geo.main
  {
    assert RegionInv(geo, t[rid]);
    Ent(t[rid], h, k).Some?
  }

  predicate At(geo: Geo, route: Word -> Word, k: Word, rid: nat, h: nat)
    requires geo.main > 0
  {
    RegionIdOf(route(k)) == rid && BucketIdOf(geo, route(k)) == h
  }

  ghost predicate AllCounted(geo: Geo, t: Tier)
    requires TierInv(geo, t)
  {
    forall rid :: 0 <= rid < REGIONS ==> RegionInv(geo, t[rid]) && Counted(t[rid])
  }

  /** The stored offset of a key, tombstones included. */
  ghost function TierEnt(geo: Geo, route: Word -> Word, t: Tier, k: Word): (e: Option<Word>)
    requires TierInv(geo, t)
  {
    assert RegionInv(geo, t[RegionIdOf(route(k))]);
    Ent(t[RegionIdOf(route(k))], BucketIdOf(geo, route(k)), k)
  }

  /** What a lookup of `k` answers at rest. */
  ghost function TierVal(geo: Geo, route: Word -> Word, t: Tier, k: Word): (e: Option<Word>)
    requires TierInv(geo, t)
  {
    if TierEnt(geo, route, t, k) == Some(TOMBSTONE) then None else TierEnt(geo, route, t, k)
  }

  // ---------------------------------------------------------------- runs

  /** A writer operation on region `rid`, finished or cut off by a kill after `n` stores. */
  datatype Event = Finish(rid: nat, op: Op) | Cut(rid: nat, op: Op, n: nat)

  function Keys(op: Op): (ks: set<Word>)
  {
    match op
    case Put(_, k, _) => {k}
    case Del(_, k) => {k}
    case Batch(_, es) => set i | 0 <= i < |es| :: es[i].key
  }

  /** Callers address region and chain by the routing hash of every key they pass. */
  ghost predicate Routed(geo: Geo, route: Word -> Word, ev: Event) {
    && geo.main > 0 && ev.rid < REGIONS && ev.op.h < geo.main
    && forall k :: k in Keys(ev.op) ==> At(geo, route, k, ev.rid, ev.op.h)
  }

  ghost function Step(geo: Geo, t: Tier, ev: Event): (t': Tier)
    requires TierInv(geo, t) && ev.rid < REGIONS && ev.op.h < geo.main
  {
    var r := t[ev.rid];
    assert RegionInv(geo, r);
    match ev
    case Finish(rid, op) => t[rid := After(r, op)]
    case Cut(rid, op, n) => t[rid := Crashed(r, op, if n <= |OpStores(r, op)| then n else |OpStores(r, op)|)]
  }

  ghost predicate Kept(e: Option<Word>, e': Option<Word>, k: Word, w: set<(Word, Word)>) {
    e' == e || (e'.Some? && (k, e'.value) in w)
  }

  lemma WritesKeys(op: Op, k: Word, o: Word)
    requires (k, o) in Writes(op)
    ensures k in Keys(op)
  {
    if op.Batch? {
      var i :| 0 <= i < |op.es| && op.es[i] == Pair(k, o);
      assert op.es[i].key in Keys(op);
    }
  }

  /** The region an event touches: legal again, and only pairs being written can differ. */
  lemma StepRegion(geo: Geo, t: Tier, ev: Event, h: nat, k: Word)
    requires TierInv(geo, t) && ev.rid < REGIONS && ev.op.h < geo.main && h < geo.main
    ensures RegionInv(geo, t[ev.rid]) && RegionInv(geo, Step(geo, t, ev)[ev.rid])
    ensures var e, e' := Ent(t[ev.rid], h, k), Ent(Step(geo, t, ev)[ev.rid], h, k);
            e' == e || (h == ev.op.h && Kept(e, e', k, Writes(ev.op)))
  {
    var r := t[ev.rid];
    assert RegionInv(geo, r);
    var ss := OpStores(r, ev.op);
    match ev
    case Finish(rid, op) =>
      CrashSafe(r, op, |ss|, h, k);
      assert ss[..|ss|] == ss;
    case Cut(rid, op, n) => CrashSafe(r, op, if n <= |ss| then n else |ss|, h, k);
  }

  /** Every event, finished or cut off, keeps the tier legal and its keys at home. */
  lemma StepInv(geo: Geo, route: Word -> Word, t: Tier, ev: Event)
    requires TierInv(geo, t) && Homed(geo, route, t) && Routed(geo, route, ev)
    ensures TierInv(geo, Step(geo, t, ev)) && Homed(geo, route, Step(geo, t, ev))
  {
    var t' := Step(geo, t, ev);
    StepRegion(geo, t, ev, 0, 0);
    forall rid | 0 <= rid < REGIONS ensures RegionInv(geo, t'[rid]) {
      assert RegionInv(geo, t[rid]);
    }
    forall rid: nat, h: nat, k: Word | rid < REGIONS && h < geo.main && Stored(geo, t', rid, h, k)
      ensures At(geo, route, k, rid, h)
    {
      if rid == ev.rid {
        StepRegion(geo, t, ev, h, k);
        if Ent(t'[rid], h, k) != Ent(t[rid], h, k) {
          WritesKeys(ev.op, k, Ent(t'[rid], h, k).value);
        } else {
          assert Stored(geo, t, rid, h, k);
        }
      } else {
        assert Stored(geo, t, rid, h, k);
      }
    }
  }

  /** A kill leaves every key its old offset or one being written, and other keys untouched. */
  lemma StepKept(geo: Geo, route: Word -> Word, t: Tier, ev: Event, k: Word)
    requires TierInv(geo, t) && Routed(geo, route, ev) && TierInv(geo, Step(geo, t, ev))
    ensures Kept(TierEnt(geo, route, t, k), TierEnt(geo, route, Step(geo, t, ev), k), k, Writes(ev.op))
  {
    if RegionIdOf(route(k)) == ev.rid {
      StepRegion(geo, t, ev, BucketIdOf(geo, route(k)), k);
    }
  }

  /** A finished operation changes exactly the keys it performed, to exactly what it says. */
  lemma StepEffect(geo: Geo, route: Word -> Word, t: Tier, ev: Event, k: Word)
    requires TierInv(geo, t) && Routed(geo, route, ev) && ev.Finish? && TierInv(geo, Step(geo, t, ev))
    ensures RegionInv(geo, t[ev.rid])
    ensures TierEnt(geo, route, Step(geo, t, ev), k)
         == if RegionIdOf(route(k)) == ev.rid
            then Effect(Performed(t[ev.rid], ev.op), BucketIdOf(geo, route(k)), k, TierEnt(geo, route, t, k))
            else TierEnt(geo, route, t, k)
  {
    assert RegionInv(geo, t[ev.rid]);
    if RegionIdOf(route(k)) == ev.rid {
      OpEffect(t[ev.rid], ev.op, BucketIdOf(geo, route(k)), k);
    }
  }

  ghost function Exec(geo: Geo, route: Word -> Word, t: Tier, evs: seq<Event>): (t': Tier)
    requires TierInv(geo, t) && Homed(geo, route, t)
    requires forall i :: 0 <= i < |evs| ==> Routed(geo, route, evs[i])
    ensures TierInv(geo, t') && Homed(geo, route, t')
    decreases |evs|
  {
    if evs == [] then t
    else
      StepInv(geo, route, t, evs[0]);
      Exec(geo, route, Step(geo, t, evs[0]), evs[1..])
  }

  /** The abstract map: what the entry of `k` must be after the finished operations of a run. */
  ghost function Fold(geo: Geo, route: Word -> Word, t: Tier, evs: seq<Event>, k: Word, e: Option<Word>): (e': Option<Word>)
    requires TierInv(geo, t) && Homed(geo, route, t)
    requires forall i :: 0 <= i < |evs| ==> Routed(geo, route, evs[i]) && evs[i].Finish?
    decreases |evs|
  {
    if evs == [] then e
    else
      StepInv(geo, route, t, evs[0]);
      assert RegionInv(geo, t[evs[0].rid]);
      var e1 := if k in Keys(evs[0].op)
                then Effect(Performed(t[evs[0].rid], evs[0].op), evs[0].op.h, k, e) else e;
      Fold(geo, route, Step(geo, t, evs[0]), evs[1..], k, e1)
  }

  lemma EffectOther(r: Region, op: Op, g: nat, k: Word, e: Option<Word>)
    requires Inv(r) && op.h < r.main && (k !in Keys(op) || g != op.h)
    ensures Effect(Performed(r, op), g, k, e) == e
  {
    if op.Batch? && LastOff(op.es[..GroupWritten(r, op.h, op.es)], k).Some? {
      LastOffKey(op.es[..GroupWritten(r, op.h, op.es)], k);
    }
  }

  lemma {:induction false} LastOffKey(es: seq<Pair>, k: Word)
    requires LastOff(es, k).Some?
    ensures exists i :: 0 <= i < |es| && es[i].key == k
  {
    if LastOff(es[1..], k).Some? {
      LastOffKey(es[1..], k);
      var i :| 0 <= i < |es[1..]| && es[1..][i].key == k;
      assert es[i + 1].key == k;
    }
  }

  /** ColdTier refines a finite map over every crash-free run: the entry of every key is what folding
      the operations on that key alone gives, and the counters equal the published slots. */
  lemma {:induction false} RunRefines(geo: Geo, route: Word -> Word, t: Tier, evs: seq<Event>, k: Word)
    requires TierInv(geo, t) && Homed(geo, route, t) && AllCounted(geo, t)
    requires forall i :: 0 <= i < |evs| ==> Routed(geo, route, evs[i]) && evs[i].Finish?
    ensures TierEnt(geo, route, Exec(geo, route, t, evs), k)
         == Fold(geo, route, t, evs, k, TierEnt(geo, route, t, k))
    ensures AllCounted(geo, Exec(geo, route, t, evs))
    decreases |evs|
  {
    if evs != [] {
      var ev := evs[0];
      StepInv(geo, route, t, ev);
      CountedStep(geo, t, ev);
      StepEffect(geo, route, t, ev, k);
      if k !in Keys(ev.op) {
        EffectOther(t[ev.rid], ev.op, BucketIdOf(geo, route(k)), k, TierEnt(geo, route, t, k));
      } else {
        assert At(geo, route, k, ev.rid, ev.op.h);
      }
      RunRefines(geo, route, Step(geo, t, ev), evs[1..], k);
    }
  }

  lemma CountedStep(geo: Geo, t: Tier, ev: Event)
    requires TierInv(geo, t) && AllCounted(geo, t) && ev.Finish? && ev.rid < REGIONS && ev.op.h < geo.main
    requires TierInv(geo, Step(geo, t, ev))
    ensures AllCounted(geo, Step(geo, t, ev))
  {
    var t' := Step(geo, t, ev);
    assert RegionInv(geo, t[ev.rid]) && Counted(t[ev.rid]);
    CountOp(t[ev.rid], ev.op);
    forall rid | 0 <= rid < REGIONS ensures RegionInv(geo, t'[rid]) && Counted(t'[rid]) {
      assert RegionInv(geo, t[rid]) && Counted(t[rid]);
    }
  }

  // ---------------------------------------------------------------- runs with kills

  /** Over a run that also has kills, `e'` is an entry the key may end with: finished operations do exactly what
      they say, and a killed one leaves the entry alone or sets it to an offset it was writing for this key. */
  ghost predicate MayBecome(geo: Geo, route: Word -> Word, t: Tier, evs: seq<Event>, k: Word, e: Option<Word>,
                            e': Option<Word>)
    requires TierInv(geo, t) && Homed(geo, route, t)
    requires forall i :: 0 <= i < |evs| ==> Routed(geo, route, evs[i])
    decreases |evs|
  {
    if evs == [] then e' == e
    else
      var ev := evs[0];
      StepInv(geo, route, t, ev);
      assert RegionInv(geo, t[ev.rid]);
      var t1 := Step(geo, t, ev);
      if ev.Finish? then
        MayBecome(geo, route, t1, evs[1..], k, Does(t[ev.rid], ev.op, k, e), e')
      else
        || MayBecome(geo, route, t1, evs[1..], k, e, e')
        || (exists o :: (k, o) in Writes(ev.op) && MayBecome(geo, route, t1, evs[1..], k, Some(o), e'))
  }

  /** What a finished operation makes of the entry of `k`. */
  ghost function Does(r: Region, op: Op, k: Word, e: Option<Word>): (e': Option<Word>)
    requires Inv(r) && op.h < r.main
  {
    if k in Keys(op) then Effect(Performed(r, op), op.h, k, e) else e
  }

  lemma FinishDoes(geo: Geo, route: Word -> Word, t: Tier, ev: Event, k: Word)
    requires TierInv(geo, t) && Homed(geo, route, t) && Routed(geo, route, ev) && ev.Finish?
    ensures TierInv(geo, Step(geo, t, ev)) && RegionInv(geo, t[ev.rid])
    ensures TierEnt(geo, route, Step(geo, t, ev), k) == Does(t[ev.rid], ev.op, k, TierEnt(geo, route, t, k))
  {
    StepInv(geo, route, t, ev);
    StepEffect(geo, route, t, ev, k);
    if k !in Keys(ev.op) {
      EffectOther(t[ev.rid], ev.op, BucketIdOf(geo, route(k)), k, TierEnt(geo, route, t, k));
    } else {
      assert At(geo, route, k, ev.rid, ev.op.h);
    }
  }

  /** Over every run of operations, kills at any store and reopens, on any regions, each key ends with an entry
      the run allows it. */
  lemma {:induction false} RunWithKills(geo: Geo, route: Word -> Word, t: Tier, evs: seq<Event>, k: Word)
    requires TierInv(geo, t) && Homed(geo, route, t)
    requires forall i :: 0 <= i < |evs| ==> Routed(geo, route, evs[i])
    ensures MayBecome(geo, route, t, evs, k, TierEnt(geo, route, t, k), TierEnt(geo, route, Exec(geo, route, t, evs), k))
    decreases |evs|
  {
    if evs != [] {
      var ev := evs[0];
      StepInv(geo, route, t, ev);
      RunWithKills(geo, route, Step(geo, t, ev), evs[1..], k);
      if ev.Finish? {
        FinishDoes(geo, route, t, ev, k);
      } else {
        StepKept(geo, route, t, ev, k);
      }
      hide Does, TierEnt, Step, Homed, TierInv;
    }
  }

  // ---------------------------------------------------------------- counters in runs with kills

  /** The pairs of the operations that were killed in region `rid`. */
  function KilledPairs(evs: seq<Event>, rid: nat): (n: nat)
    decreases |evs|
  {
    if evs == [] then 0
    else (if evs[0].Cut? && evs[0].rid == rid then Need(evs[0].op) else 0) + KilledPairs(evs[1..], rid)
  }

  /** Between `r` and `r'` the counter has drifted by at most `n`. */
  ghost predicate DriftsBy(r: Region, r': Region, n: nat) {
    Inv(r) && Inv(r') && Drift(r) - n <= Drift(r') <= Drift(r) + n
  }

  lemma OneDrifts(geo: Geo, r: Region, ev: Event)
    requires RegionInv(geo, r) && ev.op.h < geo.main
    ensures match ev
            case Finish(_, op) => DriftsBy(r, After(r, op), 0)
            case Cut(_, op, n) =>
              DriftsBy(r, Crashed(r, op, if n <= |OpStores(r, op)| then n else |OpStores(r, op)|), Need(op))
  {
    hide After, Crashed, Drift;
    match ev
    case Finish(_, op) => CountOp(r, op);
    case Cut(_, op, n) => CrashDrift(r, op, if n <= |OpStores(r, op)| then n else |OpStores(r, op)|);
  }

  lemma StepDrift(geo: Geo, route: Word -> Word, t: Tier, ev: Event, rid: nat)
    requires TierInv(geo, t) && Homed(geo, route, t) && Routed(geo, route, ev) && rid < REGIONS
    ensures TierInv(geo, Step(geo, t, ev))
    ensures DriftsBy(t[rid], Step(geo, t, ev)[rid], KilledPairs([ev], rid))
  {
    hide After, Crashed, Inv, Drift, Homed;
    StepInv(geo, route, t, ev);
    assert RegionInv(geo, t[ev.rid]) && RegionInv(geo, t[rid]);
    OneDrifts(geo, t[ev.rid], ev);
    hide TierInv;
    assert KilledPairs([ev], rid) == if ev.Cut? && ev.rid == rid then Need(ev.op) else 0 by { assert [ev][1..] == []; }
  }

  /** Over every run with kills, the counter of a region drifts by at most the pairs of the operations killed in it:
      every finished operation keeps the difference. */
  lemma {:induction false} RunDrift(geo: Geo, route: Word -> Word, t: Tier, evs: seq<Event>, rid: nat)
    requires TierInv(geo, t) && Homed(geo, route, t) && rid < REGIONS
    requires forall i :: 0 <= i < |evs| ==> Routed(geo, route, evs[i])
    ensures DriftsBy(t[rid], Exec(geo, route, t, evs)[rid], KilledPairs(evs, rid))
    decreases |evs|
  {
    assert RegionInv(geo, t[rid]);
    if evs != [] {
      StepInv(geo, route, t, evs[0]);
      StepDrift(geo, route, t, evs[0], rid);
      RunDrift(geo, route, Step(geo, t, evs[0]), evs[1..], rid);
      hide Step, Drift, RegionInv, TierInv, Homed;
      assert [evs[0]][1..] == [];
    }
  }
}
