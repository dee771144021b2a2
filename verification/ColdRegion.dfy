/** One region of the cold tier: a persistent hash table of 7-slot buckets with overflow chains.

    The memory of a region is a value, and every operation on it is described by the list of
    single-word stores that the locked writer issues. A store is the unit at which a process can be
    killed and at which a lock-free reader can interleave. */
module ColdRegion {
  import opened Options

  const SLOTS: nat := 7

  type Word = w: int | 0 <= w < 0x1_0000_0000_0000_0000

  const TOMBSTONE: Word := 0xFFFF_FFFF_FFFF_FFFF

  datatype Entry = Entry(key: Word, off: Word)

  /** `occ` is the occupancy bitmap (header bits 0..6), `next` the 1-based overflow index held in
      header bits 8..63, 0 meaning the end of the chain. */
  datatype Bucket = Bucket(occ: set<nat>, next: nat, entries: seq<Entry>)

  /** Buckets `0..main-1` are the hash-addressed ones; overflow bucket `idx` sits at index
      `main + idx`, so index `main` itself is the reserved sentinel. */
  datatype Region = Region(main: nat, over: nat, buckets: seq<Bucket>, alloc: nat, count: nat)

  datatype Loc = Loc(b: nat, i: nat)

  function EmptyBucket(): Bucket {
    var z := Entry(0, 0);
    Bucket({}, 0, [z, z, z, z, z, z, z])
  }

  /** A region as `create` leaves it: zeroed memory. */
  function NewRegion(main: nat, over: nat): (r: Region)
  {
    Region(main, over, seq(main + over + 1, _ => EmptyBucket()), 0, 0)
  }

  // ---------------------------------------------------------------- memory invariant

  predicate BucketShape(bk: Bucket) {
    |bk.entries| == SLOTS && forall i :: i in bk.occ ==> i < SLOTS
  }

  /** Links point strictly forward, into the allocated part of the overflow pool. */
  ghost predicate Shape(r: Region) {
    && r.main > 0
    && |r.buckets| == r.main + r.over + 1
    && (forall b :: 0 <= b < |r.buckets| ==> BucketShape(r.buckets[b]))
    && (forall b :: 0 <= b < |r.buckets| && r.buckets[b].next != 0 ==>
          b < r.main + r.buckets[b].next && r.buckets[b].next <= r.over && r.buckets[b].next <= r.alloc)
  }

  /** No overflow bucket has two predecessors. */
  ghost predicate Injective(r: Region) {
    forall b, c :: 0 <= b < |r.buckets| && 0 <= c < |r.buckets| && r.buckets[b].next == r.buckets[c].next != 0 ==>
      b == c
  }

  /** Overflow buckets that were never handed out are still zero. */
  ghost predicate Fresh(r: Region) {
    forall b :: r.main + r.alloc < b < |r.buckets| ==> r.buckets[b] == EmptyBucket()
  }

  /** Bucket `c` lies on the chain that starts at bucket `b`. */
  ghost predicate Reach(r: Region, b: nat, c: nat)
    requires Shape(r) && b < |r.buckets|
    decreases |r.buckets| - b
  {
    b == c || (r.buckets[b].next != 0 && Reach(r, r.main + r.buckets[b].next, c))
  }

  /** Slot `i` of bucket `b` is published on chain `h` and holds key `k`. */
  ghost predicate Pub(r: Region, h: nat, b: nat, i: nat, k: Word)
    requires Shape(r) && h < |r.buckets|
  {
    && Reach(r, h, b)
    && b < |r.buckets|
    && i in r.buckets[b].occ
    && r.buckets[b].entries[i].key == k
  }

  /** A key has at most one published slot on a chain. */
  ghost predicate Unique(r: Region)
    requires Shape(r)
  {
    forall h: nat, b: nat, i: nat, c: nat, j: nat, k: Word :: h < r.main && Pub(r, h, b, i, k) && Pub(r, h, c, j, k) ==> b == c && i == j
  }

  /** Holds after every single store of every operation, so also in every crash state. */
  ghost predicate Inv(r: Region) {
    Shape(r) && Injective(r) && Fresh(r) && Unique(r)
  }

  // ---------------------------------------------------------------- chain walks

  /** First published slot at or after `i` holding `k`, or 7. */
  function FindIn(bk: Bucket, k: Word, i: nat): (j: nat)
    requires BucketShape(bk) && i <= SLOTS
    ensures i <= j <= SLOTS
    ensures j < SLOTS ==> j in bk.occ && bk.entries[j].key == k
    ensures forall m :: i <= m < j ==> !(m in bk.occ && bk.entries[m].key == k)
    decreases SLOTS - i
  {
    if i == SLOTS then SLOTS
    else if i in bk.occ && bk.entries[i].key == k then i
    else FindIn(bk, k, i + 1)
  }

  /** First unpublished slot at or after `i`, or 7. */
  function FreeIn(bk: Bucket, i: nat): (j: nat)
    requires i <= SLOTS
    ensures i <= j <= SLOTS
    ensures j < SLOTS ==> j !in bk.occ
    ensures forall m :: i <= m < j ==> m in bk.occ
    decreases SLOTS - i
  {
    if i == SLOTS then SLOTS else if i !in bk.occ then i else FreeIn(bk, i + 1)
  }

  ghost function Find(r: Region, b: nat, k: Word): (l: Option<Loc>)
    requires Shape(r) && b < |r.buckets|
    ensures l.Some? ==> Pub(r, b, l.value.b, l.value.i, k)
    decreases |r.buckets| - b
  {
    var bk := r.buckets[b];
    var i := FindIn(bk, k, 0);
    if i < SLOTS then Some(Loc(b, i))
    else if bk.next == 0 then None
    else Find(r, r.main + bk.next, k)
  }

  ghost function FirstFree(r: Region, b: nat): (l: Option<Loc>)
    requires Shape(r) && b < |r.buckets|
    ensures l.Some? ==> Reach(r, b, l.value.b) && l.value.b < |r.buckets| && l.value.i < SLOTS
                        && l.value.i !in r.buckets[l.value.b].occ
    decreases |r.buckets| - b
  {
    var bk := r.buckets[b];
    var i := FreeIn(bk, 0);
    if i < SLOTS then Some(Loc(b, i))
    else if bk.next == 0 then None
    else FirstFree(r, r.main + bk.next)
  }

  ghost function Tail(r: Region, b: nat): (t: nat)
    requires Shape(r) && b < |r.buckets|
    ensures t < |r.buckets| && Reach(r, b, t) && r.buckets[t].next == 0
    decreases |r.buckets| - b
  {
    if r.buckets[b].next == 0 then b else Tail(r, r.main + r.buckets[b].next)
  }

  /** The stored offset of key `k` on chain `h`, tombstones included. */
  ghost function Ent(r: Region, h: nat, k: Word): (o: Option<Word>)
    requires Shape(r) && h < |r.buckets|
  {
    match Find(r, h, k)
    case None => None
    case Some(l) => Some(r.buckets[l.b].entries[l.i].off)
  }

  /** What a lookup of `k` may answer in this memory state. */
  ghost function Val(r: Region, h: nat, k: Word): (o: Option<Word>)
    requires Shape(r) && h < |r.buckets|
  {
    if Ent(r, h, k) == Some(TOMBSTONE) then None else Ent(r, h, k)
  }

  // ---------------------------------------------------------------- stores

  datatype Store =
    | SetKey(b: nat, i: nat, k: Word)
    | SetOff(b: nat, i: nat, o: Word)
    | OrOcc(b: nat, bits: set<nat>)
    | SetHdr(b: nat, occ: set<nat>, next: nat)
    | SetAlloc(n: nat)
    | AddCount

  predicate InRange(r: Region, s: Store) {
    match s
    case SetKey(b, i, _) => b < |r.buckets| && i < |r.buckets[b].entries|
    case SetOff(b, i, _) => b < |r.buckets| && i < |r.buckets[b].entries|
    case OrOcc(b, _) => b < |r.buckets|
    case SetHdr(b, _, _) => b < |r.buckets|
    case SetAlloc(_) => true
    case AddCount => true
  }

  /** Effect of one store. A store outside the mapped region changes nothing. */
  function Apply(r: Region, s: Store): (r': Region)
  {
    if !InRange(r, s) then r else
    match s
    case SetKey(b, i, k) =>
      var bk := r.buckets[b];
      r.(buckets := r.buckets[b := bk.(entries := bk.entries[i := bk.entries[i].(key := k)])])
    case SetOff(b, i, o) =>
      var bk := r.buckets[b];
      r.(buckets := r.buckets[b := bk.(entries := bk.entries[i := bk.entries[i].(off := o)])])
    case OrOcc(b, bits) =>
      r.(buckets := r.buckets[b := r.buckets[b].(occ := r.buckets[b].occ + bits)])
    case SetHdr(b, occ, next) =>
      r.(buckets := r.buckets[b := r.buckets[b].(occ := occ, next := next)])
    case SetAlloc(n) => r.(alloc := n)
    case AddCount => r.(count := r.count + 1)
  }

  function Run(r: Region, ss: seq<Store>): (r': Region)
    decreases |ss|
  {
    if ss == [] then r else Run(Apply(r, ss[0]), ss[1..])
  }

  lemma {:induction false} RunAppend(r: Region, s1: seq<Store>, s2: seq<Store>)
    ensures Run(r, s1 + s2) == Run(Run(r, s1), s2)
    decreases |s1|
  {
    if s1 == [] {
      assert s1 + s2 == s2;
    } else {
      assert (s1 + s2)[0] == s1[0] && (s1 + s2)[1..] == s1[1..] + s2;
      RunAppend(Apply(r, s1[0]), s1[1..], s2);
    }
  }

  // ---------------------------------------------------------------- facts about chains

  /** A created region is legal and empty, and has handed out no overflow bucket. */
  lemma NewRegionEmpty(main: nat, over: nat)
    requires main > 0
    ensures Inv(NewRegion(main, over)) && NewRegion(main, over).alloc == NewRegion(main, over).count == 0
    ensures forall h: nat, k: Word :: h < main ==> Ent(NewRegion(main, over), h, k) == None
  {
  }

  /** A published match anywhere on the chain is found. */
  lemma {:induction false} FindComplete(r: Region, h: nat, b: nat, i: nat, k: Word)
    requires Shape(r) && h < |r.buckets| && Pub(r, h, b, i, k)
    ensures Find(r, h, k).Some?
    decreases |r.buckets| - h
  {
    if FindIn(r.buckets[h], k, 0) == SLOTS {
      assert b != h;
      FindComplete(r, r.main + r.buckets[h].next, b, i, k);
    }
  }

  /** Under the invariant the stored offset of a key is the one in its published slot. */
  lemma EntIs(r: Region, h: nat, b: nat, i: nat, k: Word)
    requires Inv(r) && h < r.main && Pub(r, h, b, i, k)
    ensures Find(r, h, k) == Some(Loc(b, i))
    ensures Ent(r, h, k) == Some(r.buckets[b].entries[i].off)
  {
    FindComplete(r, h, b, i, k);
    var l := Find(r, h, k).value;
    assert Pub(r, h, l.b, l.i, k);
  }

  lemma {:induction false} ReachTrans(r: Region, a: nat, b: nat, c: nat)
    requires Shape(r) && a < |r.buckets| && b < |r.buckets| && Reach(r, a, b) && Reach(r, b, c)
    ensures Reach(r, a, c)
    decreases |r.buckets| - a
  {
    if a != b {
      ReachTrans(r, r.main + r.buckets[a].next, b, c);
    }
  }

  /** Chains only run forward and stay inside the region. */
  lemma {:induction false} ReachBound(r: Region, a: nat, b: nat)
    requires Shape(r) && a < |r.buckets| && Reach(r, a, b)
    ensures a <= b < |r.buckets| && (a != b ==> r.main < b)
    decreases |r.buckets| - a
  {
    if a != b {
      ReachBound(r, r.main + r.buckets[a].next, b);
    }
  }

  /** A reached bucket other than the start has a predecessor on the same chain. */
  lemma {:induction false} Pred(r: Region, a: nat, b: nat) returns (p: nat)
    requires Shape(r) && a < |r.buckets| && Reach(r, a, b) && a != b
    ensures p < b < |r.buckets| && Reach(r, a, p) && r.buckets[p].next != 0 && r.main + r.buckets[p].next == b
    decreases |r.buckets| - a
  {
    var n := r.main + r.buckets[a].next;
    ReachBound(r, n, b);
    if n == b {
      p := a;
    } else {
      p := Pred(r, n, b);
    }
  }

  /** Every bucket lies on at most one chain. */
  lemma {:induction false} ChainsDisjoint(r: Region, h1: nat, h2: nat, b: nat)
    requires Shape(r) && Injective(r) && h1 < r.main && h2 < r.main
    requires Reach(r, h1, b) && Reach(r, h2, b)
    ensures h1 == h2
    decreases b
  {
    ReachBound(r, h1, b);
    ReachBound(r, h2, b);
    if b != h1 && b != h2 {
      var p1 := Pred(r, h1, b);
      var p2 := Pred(r, h2, b);
      assert p1 == p2;
      ChainsDisjoint(r, h1, h2, p1);
    }
  }

  /** Changing neither links nor geometry changes no chain. */
  lemma {:induction false} ReachSame(r: Region, r': Region, b: nat, c: nat)
    requires Shape(r) && Shape(r') && r.main == r'.main && |r.buckets| == |r'.buckets| && b < |r.buckets|
    requires forall x :: 0 <= x < |r.buckets| ==> r.buckets[x].next == r'.buckets[x].next
    ensures Reach(r, b, c) == Reach(r', b, c)
    decreases |r.buckets| - b
  {
    if b != c && r.buckets[b].next != 0 {
      ReachSame(r, r', r.main + r.buckets[b].next, c);
    }
  }
}
