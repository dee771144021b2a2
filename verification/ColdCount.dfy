/** The region's entry counter against the published slots it counts. */
module ColdCount {
  import opened ColdRegion
  import opened ColdSteps
  import opened ColdUpsert
  import opened ColdGroup
  import opened ColdCrash

  /** Published slots on the chain from `b` on, tombstoned ones included. */
  ghost function ChainCount(r: Region, b: nat): (n: nat)
    requires Shape(r) && b < |r.buckets|
    decreases |r.buckets| - b
  {
    |r.buckets[b].occ| + if r.buckets[b].next == 0 then 0 else ChainCount(r, r.main + r.buckets[b].next)
  }

  /** Published slots on the first `m` chains. */
  ghost function SlotCount(r: Region, m: nat): (n: nat)
    requires Shape(r) && m <= r.main
  {
    if m == 0 then 0 else SlotCount(r, m - 1) + ChainCount(r, m - 1)
  }

  /** How far `num_entries` is ahead of the number of reachable published slots. */
  ghost function Drift(r: Region): (d: int)
    requires Shape(r)
  {
    r.count - SlotCount(r, r.main)
  }

  /** `num_entries` is the number of reachable published slots. */
  ghost predicate Counted(r: Region)
    requires Shape(r)
  {
    Drift(r) == 0
  }

  lemma {:induction false} ChainCountSame(r: Region, r': Region, b: nat)
    requires Shape(r) && Shape(r') && SameLinks(r, r') && b < |r.buckets|
    requires forall x :: 0 <= x < |r.buckets| ==> r.buckets[x].occ == r'.buckets[x].occ
    ensures ChainCount(r', b) == ChainCount(r, b)
    decreases |r.buckets| - b
  {
    if r.buckets[b].next != 0 {
      ChainCountSame(r, r', r.main + r.buckets[b].next);
    }
  }

  /** One more bit in bucket `c` counts once, on every chain that passes `c`. */
  lemma {:induction false} ChainCountBit(r: Region, r': Region, b: nat, c: nat, i: nat)
    requires Shape(r) && Shape(r') && SameLinks(r, r') && b < |r.buckets| && c < |r.buckets|
    requires i !in r.buckets[c].occ && r'.buckets[c].occ == r.buckets[c].occ + {i}
    requires forall x :: 0 <= x < |r.buckets| && x != c ==> r.buckets[x].occ == r'.buckets[x].occ
    ensures ChainCount(r', b) == ChainCount(r, b) + if Reach(r, b, c) then 1 else 0
    decreases |r.buckets| - b
  {
    if r.buckets[b].next != 0 {
      var n := r.main + r.buckets[b].next;
      ChainCountBit(r, r', n, c, i);
      if b == c && Reach(r, n, c) {
        ReachBound(r, n, c);
      }
    }
  }

  /** A linked bucket with one published slot counts once, on every chain that passed the old tail. */
  lemma {:induction false} ChainCountLink(r: Region, r': Region, b: nat, t: nat, n: nat, nb: Bucket)
    requires Shape(r) && Shape(r') && ExtendArgs(r, n, t) && b < |r.buckets| && r.buckets[t].next == 0
    requires r' == Linked(r, t, n, nb) && nb.occ == {0} && nb.next == 0 && b != r.main + n
    ensures ChainCount(r', b) == ChainCount(r, b) + if Reach(r, b, t) then 1 else 0
    decreases |r.buckets| - b
  {
    if b == t {
      assert ChainCount(r', r.main + n) == 1;
    } else if r.buckets[b].next != 0 {
      ChainCountLink(r, r', r.main + r.buckets[b].next, t, n, nb);
    }
  }

  lemma {:induction false} SlotCountPlus(r: Region, r': Region, h: nat, d: nat, m: nat)
    requires Shape(r) && Shape(r') && r'.main == r.main && m <= r.main
    requires forall g: nat :: g < r.main ==> ChainCount(r', g) == ChainCount(r, g) + if g == h then d else 0
    ensures SlotCount(r', m) == SlotCount(r, m) + if h < m then d else 0
  {
    if m > 0 {
      SlotCountPlus(r, r', h, d, m - 1);
    }
  }

  lemma CountUpdate(r: Region, h: nat, l: Loc, k: Word, o: Word)
    requires Inv(r) && h < r.main && Pub(r, h, l.b, l.i, k)
    ensures var r' := Run(r, PlanStores(r, Update(l), k, o));
            Shape(r') && Drift(r') == Drift(r) && r'.count == r.count
  {
    UpdateList(r, h, l, k, o);
    RunOne(r, SetOff(l.b, l.i, o));
    var r' := Apply(r, SetOff(l.b, l.i, o));
    forall g: nat | g < r.main ensures ChainCount(r', g) == ChainCount(r, g) {
      ChainCountSame(r, r', g);
    }
    SlotCountPlus(r, r', h, 0, r.main);
  }

  lemma CountInsert(r: Region, h: nat, l: Loc, k: Word, o: Word, r': Region)
    requires Inv(r) && h < r.main && Reach(r, h, l.b) && l.b < |r.buckets| && l.i < SLOTS
    requires l.i !in r.buckets[l.b].occ && r' == Run(r, PlanStores(r, Insert(l), k, o)) && Shape(r')
    ensures Drift(r') == Drift(r) && r'.count == r.count + 1
  {
    RunInsertUpsert(r, l, k, o, FilledBucket(r.buckets[l.b], l.i, k, o).(occ := r.buckets[l.b].occ + {l.i}));
    forall g: nat | g < r.main ensures ChainCount(r', g) == ChainCount(r, g) + if g == h then 1 else 0 {
      ChainCountBit(r, r', g, l.b, l.i);
      if Reach(r, g, l.b) {
        ChainsDisjoint(r, g, h, l.b);
      }
    }
    SlotCountPlus(r, r', h, 1, r.main);
  }

  lemma CountExtend(r: Region, h: nat, n: nat, t: nat, k: Word, o: Word, r': Region)
    requires Inv(r) && h < r.main && ExtendArgs(r, n, t) && t == Tail(r, h)
    requires r' == Run(r, PlanStores(r, Extend(n, t), k, o)) && Shape(r')
    ensures Drift(r') == Drift(r) && r'.count == r.count + 1
  {
    var nb := Bucket({0}, 0, EmptyBucket().entries[0 := Entry(k, o)]);
    RunExtendUpsert(r, n, t, k, o);
    forall g: nat | g < r.main ensures ChainCount(r', g) == ChainCount(r, g) + if g == h then 1 else 0 {
      ChainCountLink(r, r', g, t, n, nb);
      if Reach(r, g, t) {
        ChainsDisjoint(r, g, h, t);
      }
    }
    SlotCountPlus(r, r', h, 1, r.main);
  }

  lemma CountUpsert(r: Region, h: nat, k: Word, o: Word)
    requires Inv(r) && h < r.main
    ensures var r' := Upsert(r, h, k, o);
            Inv(r') && Drift(r') == Drift(r) && r'.count <= r.count + 1
  {
    UpsertCorrect(r, h, k, o);
    var p := PlanOf(r, h, k);
    PlanBounds(r, h, k, p);
    match p
    case Update(l) => CountUpdate(r, h, l, k, o);
    case Insert(l) => CountInsert(r, h, l, k, o, Upsert(r, h, k, o));
    case Extend(n, t) => CountExtend(r, h, n, t, k, o, Upsert(r, h, k, o));
    case Full =>
  }

  lemma {:induction false} CountRun(v: Region, h: nat, es: seq<Pair>, n: nat, v': Region)
    requires Inv(v) && h < v.main && n <= |es| && UpsertRun(v, h, es, n, v')
    ensures Inv(v') && Drift(v') == Drift(v) && v'.count <= v.count + n
    decreases n
  {
    hide Upsert;
    if n > 0 {
      CountUpsert(v, h, es[0].key, es[0].off);
      UpsertCorrect(v, h, es[0].key, es[0].off);
      CountRun(Upsert(v, h, es[0].key, es[0].off), h, es[1..], n - 1, v');
    }
  }

  /** A finished operation moves the entry counter and the number of reachable published slots by the same amount,
      whichever operation ran and whether or not it found room. */
  lemma CountOp(r: Region, op: Op)
    requires Inv(r) && op.h < r.main
    ensures Inv(After(r, op)) && Drift(After(r, op)) == Drift(r) && After(r, op).count <= r.count + Need(op)
    ensures Counted(r) ==> Counted(After(r, op))
  {
    match op
    case Put(h, k, o) => CountUpsert(r, h, k, o);
    case Del(h, k) =>
      RemoveCorrect(r, h, k);
      if Find(r, h, k).Some? {
        CountUpdate(r, h, Find(r, h, k).value, k, TOMBSTONE);
      }
    case Batch(h, es) =>
      GroupRefines(r, h, es);
      CountRun(r, h, es, GroupWritten(r, h, es), After(r, op));
  }

  // ---------------------------------------------------------------- what a kill does to the counter

  lemma {:induction false} ChainGrows(r: Region, r': Region, b: nat)
    requires Shape(r) && Shape(r') && Grows(r, r') && b < |r.buckets|
    ensures ChainCount(r, b) <= ChainCount(r', b)
    decreases |r.buckets| - b
  {
    SubsetSize(r.buckets[b].occ, r'.buckets[b].occ);
    if r.buckets[b].next != 0 {
      ChainGrows(r, r', r.main + r.buckets[b].next);
    }
  }

  lemma {:induction false} SubsetSize(a: set<nat>, b: set<nat>)
    requires a <= b
    ensures |a| <= |b|
    decreases |a|
  {
    if a != {} {
      var x :| x in a;
      SubsetSize(a - {x}, b - {x});
    }
  }

  lemma {:induction false} SlotsGrow(r: Region, r': Region, m: nat)
    requires Shape(r) && Shape(r') && Grows(r, r') && m <= r.main
    ensures SlotCount(r, m) <= SlotCount(r', m)
    decreases m
  {
    if m > 0 {
      SlotsGrow(r, r', m - 1);
      ChainGrows(r, r', m - 1);
    }
  }

  lemma {:induction false} CountGrows(r: Region, ss: seq<Store>)
    ensures r.count <= Run(r, ss).count
    decreases |ss|
  {
    if ss != [] {
      CountGrows(Apply(r, ss[0]), ss[1..]);
    }
  }

  lemma {:induction false} AlongSuffix(r: Region, ss: seq<Store>, n: nat, h: nat, w: set<(Word, Word)>)
    requires Inv(r) && Along(r, ss, h, w) && n <= |ss|
    ensures Inv(Run(r, ss[..n])) && Along(Run(r, ss[..n]), ss[n..], h, w)
    ensures Run(Run(r, ss[..n]), ss[n..]) == Run(r, ss)
    decreases n
  {
    if n == 0 {
      assert ss[..0] == [] && ss[0..] == ss;
    } else {
      assert ss[..n][1..] == ss[1..][..n - 1] && ss[n..] == ss[1..][n - 1..];
      AlongSuffix(Apply(r, ss[0]), ss[1..], n - 1, h, w);
    }
  }

  /** A kill in the middle of an operation moves the counter away from the published slots by at most the pairs of
      that operation: both only grow towards the end of the operation, where they agree again. */
  lemma CrashDrift(r: Region, op: Op, n: nat)
    requires Inv(r) && op.h < r.main && n <= |OpStores(r, op)|
    ensures Inv(Crashed(r, op, n))
    ensures Drift(r) - Need(op) <= Drift(Crashed(r, op, n)) <= Drift(r) + Need(op)
  {
    var ss, c, e := OpStores(r, op), Crashed(r, op, n), After(r, op);
    OpAlong(r, op);
    AlongPrefix(r, ss, n, op.h, Writes(op));
    AlongSuffix(r, ss, n, op.h, Writes(op));
    AlongWhole(c, ss[n..], op.h, Writes(op));
    CountOp(r, op);
    CountGrows(r, ss[..n]);
    CountGrows(c, ss[n..]);
    hide OpStores, Run, Along;
    SlotsGrow(r, c, r.main);
    SlotsGrow(c, e, r.main);
  }
}
